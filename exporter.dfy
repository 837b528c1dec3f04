/**
 * SVG serialisation of normalised curve data: the path-data string of one
 * spline (moveto, lineto and cubic curveto commands of section 8.3 of the
 * SVG 1.1 specification) and the whole document around the paths.
 */
module SvgExporter {
  import opened Wrappers
  import opened GeometryBase
  import opened Digits
  import opened GeometryUtils
  import opened CurveProcessor

  // ---------------------------------------------------------------------------
  // Path data

  /** The three commands the writer knows. */
  predicate IsCommand(kind: string) {
    kind == "M" || kind == "L" || kind == "C"
  }

  /** A segment carries the points its command reads: one for a move or line, three for a cubic. */
  predicate Drawable(seg: Segment) {
    && (seg.kind == "M" || seg.kind == "L" ==> |seg.points| >= 1)
    && (seg.kind == "C" ==> |seg.points| >= 3)
  }

  predicate AllDrawable(spline: Spline) {
    forall k :: 0 <= k < |spline| ==> Drawable(spline[k])
  }

  /** "x,y" with both coordinates formatted alike. */
  function CoordinatePair(p: GPointF, precision: nat, useComma: bool): string {
    FormatCoordinate(p.x, precision, useComma) + "," + FormatCoordinate(p.y, precision, useComma)
  }

  /** What follows a command letter: one coordinate pair, or three separated by spaces for a cubic. */
  function Operands(seg: Segment, precision: nat, useComma: bool): string
    requires Drawable(seg) && IsCommand(seg.kind)
  {
    if seg.kind == "C" then
      CoordinatePair(seg.points[0], precision, useComma)
      + " " + CoordinatePair(seg.points[1], precision, useComma)
      + " " + CoordinatePair(seg.points[2], precision, useComma)
    else CoordinatePair(seg.points[0], precision, useComma)
  }

  /** The token of one segment: "M x,y", "L x,y" or "C x1,y1 x2,y2 x3,y3"; None for any other command. */
  function Token(seg: Segment, precision: nat, useComma: bool): (r: Option<string>)
    requires Drawable(seg)
    ensures r.Some? <==> IsCommand(seg.kind)
    ensures r.Some? ==> |r.value| >= 2 && [r.value[0]] == seg.kind && r.value[1] == ' '
  {
    if IsCommand(seg.kind) then Some([seg.kind[0], ' '] + Operands(seg, precision, useComma)) else None
  }

  /** The command letters of the known segments, in order. */
  function KnownKinds(spline: Spline): (r: string)
    ensures |r| <= |spline|
    ensures r == [] <==> forall k :: 0 <= k < |spline| ==> !IsCommand(spline[k].kind)
  {
    if spline == [] then []
    else
      var last := spline[|spline| - 1];
      KnownKinds(spline[..|spline| - 1]) + (if IsCommand(last.kind) then last.kind else [])
  }

  /** The tokens of a spline's known segments, in order: one per command letter of KnownKinds. */
  function Tokens(spline: Spline, precision: nat, useComma: bool): (r: seq<string>)
    requires AllDrawable(spline)
    ensures |r| == |KnownKinds(spline)|
  {
    if spline == [] then []
    else
      var init := spline[..|spline| - 1];
      assert AllDrawable(init);
      match Token(spline[|spline| - 1], precision, useComma)
      case None => Tokens(init, precision, useComma)
      case Some(t) => Tokens(init, precision, useComma) + [t]
  }

  /** Each token opens with its segment's command letter and a space. */
  lemma {:induction false} TokensOpenWithKinds(spline: Spline, precision: nat, useComma: bool)
    requires AllDrawable(spline)
    ensures forall i :: 0 <= i < |Tokens(spline, precision, useComma)| ==>
              var t := Tokens(spline, precision, useComma)[i];
              |t| >= 2 && t[0] == KnownKinds(spline)[i] && t[1] == ' '
    decreases |spline|
  {
    if spline != [] {
      var init, last := spline[..|spline| - 1], spline[|spline| - 1];
      assert AllDrawable(init);
      TokensOpenWithKinds(init, precision, useComma);
      var ts := Tokens(init, precision, useComma);
      if IsCommand(last.kind) {
        var t := Token(last, precision, useComma).value;
        assert Tokens(spline, precision, useComma) == ts + [t];
        assert KnownKinds(spline) == KnownKinds(init) + last.kind;
        TokensSnoc(ts, KnownKinds(init), t, last.kind);
      } else {
        assert Tokens(spline, precision, useComma) == ts;
        assert KnownKinds(spline) == KnownKinds(init) + [];
      }
    }
  }

  /** Tokens that open with their command letters still do so after one more token and letter. */
  lemma TokensSnoc(ts: seq<string>, kinds: string, t: string, kind: string)
    requires |ts| == |kinds|
    requires forall i :: 0 <= i < |ts| ==> |ts[i]| >= 2 && ts[i][0] == kinds[i] && ts[i][1] == ' '
    requires |t| >= 2 && [t[0]] == kind && t[1] == ' '
    ensures |ts + [t]| == |kinds + kind|
    ensures forall i :: 0 <= i < |ts + [t]| ==>
              |(ts + [t])[i]| >= 2 && (ts + [t])[i][0] == (kinds + kind)[i] && (ts + [t])[i][1] == ' '
  {
    forall i | 0 <= i < |ts + [t]|
      ensures |(ts + [t])[i]| >= 2 && (ts + [t])[i][0] == (kinds + kind)[i] && (ts + [t])[i][1] == ' '
    {
      if i == |ts| {
        assert (kinds + kind)[i] == kind[0];
      }
    }
  }

  /** Python's `" ".join(parts)`. */
  function Join(parts: seq<string>): (r: string)
    ensures (forall i :: 0 <= i < |parts| ==> parts[i] != []) ==> (r == [] <==> parts == [])
  {
    if parts == [] then []
    else if |parts| == 1 then parts[0]
    else Join(parts[..|parts| - 1]) + " " + parts[|parts| - 1]
  }

  /** `_generate_path_data`: the spline's tokens joined by single spaces. */
  function PathData(spline: Spline, precision: nat, useComma: bool): (r: string)
    requires AllDrawable(spline)
    ensures r == [] <==> forall k :: 0 <= k < |spline| ==> !IsCommand(spline[k].kind)
  {
    var tokens := Tokens(spline, precision, useComma);
    TokensOpenWithKinds(spline, precision, useComma);
    assert forall i :: 0 <= i < |tokens| ==> tokens[i] != [];
    Join(tokens)
  }

  /** Collects the tokens segment by segment, then joins them. */
  method GeneratePathData(spline: Spline, precision: nat, useComma: bool) returns (r: string)
    requires AllDrawable(spline)
    ensures r == PathData(spline, precision, useComma)
  {
    var pathSegments: seq<string> := [];
    for k := 0 to |spline|
      invariant pathSegments == Tokens(spline[..k], precision, useComma)
    {
      assert spline[..k + 1][..k] == spline[..k];
      var token := Token(spline[k], precision, useComma);
      if token.Some? {
        pathSegments := pathSegments + [token.value];
      }
    }
    assert spline[..|spline|] == spline;
    r := Join(pathSegments);
  }

  // ---------------------------------------------------------------------------
  // The command letters of a path string

  predicate IsCommandChar(c: char) {
    c == 'M' || c == 'L' || c == 'C'
  }

  /** The command letters of a string, in order. */
  function Commands(s: string): (r: string)
    ensures |r| <= |s|
  {
    if s == [] then []
    else Commands(s[..|s| - 1]) + (if IsCommandChar(s[|s| - 1]) then [s[|s| - 1]] else [])
  }

  lemma {:induction false} CommandsOfJoin(a: string, b: string)
    ensures Commands(a + b) == Commands(a) + Commands(b)
    decreases |b|
  {
    if b != [] {
      var n := |b| - 1;
      assert (a + b)[..|a + b| - 1] == a + b[..n];
      CommandsOfJoin(a, b[..n]);
    } else {
      assert a + b == a;
    }
  }

  /** No character of s is a command letter. */
  predicate CommandFree(s: string) {
    forall k :: 0 <= k < |s| ==> !IsCommandChar(s[k])
  }

  lemma {:induction false} CommandFreeHasNoCommands(s: string)
    requires CommandFree(s)
    ensures Commands(s) == []
    decreases |s|
  {
    if s != [] {
      CommandFreeHasNoCommands(s[..|s| - 1]);
    }
  }

  lemma JoinIsCommandFree(a: string, sep: char, b: string)
    requires CommandFree(a) && !IsCommandChar(sep) && CommandFree(b)
    ensures CommandFree(a + [sep] + b)
  {
    var s := a + [sep] + b;
    forall k | 0 <= k < |s| ensures !IsCommandChar(s[k]) {
      if k < |a| { assert s[k] == a[k]; }
      else if k > |a| { assert s[k] == b[k - |a| - 1]; }
    }
  }

  /** A formatted coordinate holds digits, a sign and a separator, never a command letter. */
  lemma CoordinateIsCommandFree(value: real, precision: nat, useComma: bool)
    ensures CommandFree(FormatCoordinate(value, precision, useComma))
  {
    var fixed := FixedPoint(value, precision);
    FixedPointChars(value, precision);
    var s := FormatCoordinate(value, precision, useComma);
    forall k | 0 <= k < |s| ensures !IsCommandChar(s[k]) {
      assert s[k] == fixed[k] || s[k] == ',';
    }
  }

  lemma PairIsCommandFree(p: GPointF, precision: nat, useComma: bool)
    ensures CommandFree(CoordinatePair(p, precision, useComma))
  {
    CoordinateIsCommandFree(p.x, precision, useComma);
    CoordinateIsCommandFree(p.y, precision, useComma);
    JoinIsCommandFree(FormatCoordinate(p.x, precision, useComma), ',', FormatCoordinate(p.y, precision, useComma));
  }

  lemma OperandsAreCommandFree(seg: Segment, precision: nat, useComma: bool)
    requires Drawable(seg) && IsCommand(seg.kind)
    ensures CommandFree(Operands(seg, precision, useComma))
  {
    var p0 := CoordinatePair(seg.points[0], precision, useComma);
    PairIsCommandFree(seg.points[0], precision, useComma);
    if seg.kind == "C" {
      var p1 := CoordinatePair(seg.points[1], precision, useComma);
      var p2 := CoordinatePair(seg.points[2], precision, useComma);
      PairIsCommandFree(seg.points[1], precision, useComma);
      PairIsCommandFree(seg.points[2], precision, useComma);
      JoinIsCommandFree(p0, ' ', p1);
      JoinIsCommandFree(p0 + [' '] + p1, ' ', p2);
      assert Operands(seg, precision, useComma) == p0 + [' '] + p1 + [' '] + p2;
    }
  }

  /** The only command letter of a token is its own command. */
  lemma TokenCommands(seg: Segment, precision: nat, useComma: bool)
    requires Drawable(seg) && IsCommand(seg.kind)
    ensures Commands(Token(seg, precision, useComma).value) == seg.kind
  {
    var operands := Operands(seg, precision, useComma);
    OperandsAreCommandFree(seg, precision, useComma);
    CommandFreeHasNoCommands(operands);
    HeadCommands(seg.kind[0]);
    CommandsOfJoin([seg.kind[0], ' '], operands);
    assert Token(seg, precision, useComma).value == [seg.kind[0], ' '] + operands;
  }

  lemma HeadCommands(c: char)
    requires IsCommandChar(c)
    ensures Commands([c, ' ']) == [c]
  {
    assert [c, ' '][..1] == [c];
    assert [c][..0] == [];
  }

  /**
   * Reading the command letters back out of the path data gives the
   * commands of the spline's M, L and C segments, in order: one token per
   * known segment, unknown ones skipped.
   */
  lemma {:induction false} PathCommandsAreSegmentKinds(spline: Spline, precision: nat, useComma: bool)
    requires AllDrawable(spline)
    ensures Commands(PathData(spline, precision, useComma)) == KnownKinds(spline)
    decreases |spline|
  {
    if spline != [] {
      var init := spline[..|spline| - 1];
      var last := spline[|spline| - 1];
      assert AllDrawable(init);
      PathCommandsAreSegmentKinds(init, precision, useComma);
      var ts := Tokens(init, precision, useComma);
      assert Commands(Join(ts)) == KnownKinds(init);
      if IsCommand(last.kind) {
        var t := Token(last, precision, useComma).value;
        TokenCommands(last, precision, useComma);
        assert Tokens(spline, precision, useComma) == ts + [t];
        JoinCommands(ts, t);
        assert KnownKinds(spline) == KnownKinds(init) + last.kind;
      } else {
        assert Tokens(spline, precision, useComma) == ts;
        assert KnownKinds(spline) == KnownKinds(init) + [];
      }
    }
  }

  /** Appending a token adds its command letters after those already joined. */
  lemma JoinCommands(ts: seq<string>, t: string)
    ensures Commands(Join(ts + [t])) == Commands(Join(ts)) + Commands(t)
  {
    if ts == [] {
      assert ts + [t] == [t];
    } else {
      assert (ts + [t])[..|ts|] == ts;
      SeparatorAddsNoCommand(Join(ts), t);
    }
  }

  lemma SeparatorAddsNoCommand(a: string, b: string)
    ensures Commands(a + " " + b) == Commands(a) + Commands(b)
  {
    assert (a + " ")[..|a|] == a;
    assert Commands(a + " ") == Commands(a);
    CommandsOfJoin(a + " ", b);
  }

  lemma BezierSplinesAreDrawable(pts: seq<ProjectedBezier>, cyclic: bool)
    ensures AllDrawable(BezierSegments(pts, cyclic))
  {
    var r := BezierSegments(pts, cyclic);
    forall k | 0 <= k < |r| ensures Drawable(r[k]) {
      if k == 0 {
        assert r[k] == Segment("M", [pts[0].co]);
      } else if k < |pts| {
        assert r[k] == Segment("C", [pts[k - 1].hr, pts[k].hl, pts[k].co]);
      } else {
        assert r[k] == Segment("C", [pts[|pts| - 1].hr, pts[0].hl, pts[0].co]);
      }
    }
  }

  lemma PolySplinesAreDrawable(pts: seq<GPointF>, cyclic: bool)
    ensures AllDrawable(PolySegments(pts, cyclic))
  {
    var r := PolySegments(pts, cyclic);
    forall k | 0 <= k < |r| ensures Drawable(r[k]) {
      if k < |pts| {
        assert r[k] == OpenPolySegments(pts)[k];
      }
    }
  }

  /** Normalisation shifts points but keeps every segment drawable. */
  lemma ShiftKeepsDrawable(spline: Spline, offset: GPointF)
    requires AllDrawable(spline)
    ensures AllDrawable(ShiftSpline(spline, offset))
  {
    var r := ShiftSpline(spline, offset);
    forall k | 0 <= k < |r| ensures Drawable(r[k]) {
      assert Drawable(spline[k]);
      assert r[k] == ShiftSegment(spline[k], offset);
    }
  }

  // ---------------------------------------------------------------------------
  // The document

  /** The export settings the document reads. */
  datatype ExportSettings = ExportSettings(
    svgScale: real, precision: nat, useCommaSeparator: bool,
    useFill: bool, fillColor: Rgba, useStroke: bool, strokeColor: Rgba, strokeWidth: real,
    showMarkers: bool, markerSize: real, markerColor: string)

  /** Fill, stroke and stroke width of one object's paths, as attribute text. */
  datatype PathStyle = PathStyle(fill: string, stroke: string, strokeWidth: string)

  /**
   * The object's own style when it has one, the global settings otherwise.
   * A disabled fill or stroke is "none", a disabled stroke has width "0";
   * `repr` renders a number as Python's `str` does.
   */
  function StyleOf(style: Option<CurveSettings>, settings: ExportSettings, repr: real -> string): (r: PathStyle)
    ensures var useFill := if style.Some? then style.value.useFill else settings.useFill;
      var fillColor := if style.Some? then style.value.fillColor else settings.fillColor;
      (r.fill == "none" <==> !useFill) && (useFill ==> r.fill == HexFromRgba(fillColor))
    ensures var useStroke := if style.Some? then style.value.useStroke else settings.useStroke;
      var strokeColor := if style.Some? then style.value.strokeColor else settings.strokeColor;
      var width := if style.Some? then style.value.strokeWidth else settings.strokeWidth;
      && (r.stroke == "none" <==> !useStroke)
      && (useStroke ==> r.stroke == HexFromRgba(strokeColor) && r.strokeWidth == repr(width))
      && (!useStroke ==> r.strokeWidth == "0")
  {
    var (useFill, fillColor, useStroke, strokeColor, width) :=
      if style.Some? then (style.value.useFill, style.value.fillColor, style.value.useStroke,
                           style.value.strokeColor, style.value.strokeWidth)
      else (settings.useFill, settings.fillColor, settings.useStroke, settings.strokeColor, settings.strokeWidth);
    var fill := if useFill then HexFromRgba(fillColor) else "none";
    var stroke := if useStroke then HexFromRgba(strokeColor) else "none";
    assert fill == "none" ==> !useFill by {
      if useFill { assert fill[0] == '#'; }
    }
    assert stroke == "none" ==> !useStroke by {
      if useStroke { assert stroke[0] == '#'; }
    }
    PathStyle(fill, stroke, if useStroke then repr(width) else "0")
  }

  /** One line of the document body. */
  datatype SvgLine =
    | PathLine(d: string, style: PathStyle)
    | NoDataRect(width: string, height: string)
    | NoDataText(x: string, y: string)
    | Marker(cx: string, cy: string, radius: string, color: string)
    | MarkerNote

  function RenderLine(line: SvgLine): string {
    match line
    case PathLine(d, style) =>
      "    <path d=\"" + d + "\" fill=\"" + style.fill + "\" stroke=\"" + style.stroke
      + "\" stroke-width=\"" + style.strokeWidth + "\" />\n"
    case NoDataRect(width, height) =>
      "    <rect x=\"0\" y=\"0\" width=\"" + width + "\" height=\"" + height
      + "\" fill=\"none\" stroke=\"red\" stroke-width=\"0.5\" stroke-dasharray=\"2,2\" />\n"
    case NoDataText(x, y) =>
      "    <text x=\"" + x + "\" y=\"" + y
      + "\" text-anchor=\"middle\" fill=\"red\">No curve data</text>\n"
    case Marker(cx, cy, radius, color) =>
      "    <circle cx=\"" + cx + "\" cy=\"" + cy + "\" r=\"" + radius
      + "\" fill=\"" + color + "\" />\n"
    case MarkerNote =>
      "    <!-- Markers show reference points for positioning. Can be safely removed. -->\n"
  }

  /** The lines rendered one after another. */
  function Render(lines: seq<SvgLine>): string {
    if lines == [] then [] else Render(lines[..|lines| - 1]) + RenderLine(lines[|lines| - 1])
  }

  /** Appending one line renders it after the others. */
  lemma RenderSnoc(a: seq<SvgLine>, x: SvgLine)
    ensures Render(a + [x]) == Render(a) + RenderLine(x)
  {
    var s := a + [x];
    assert s != [] && s[..|s| - 1] == a && s[|s| - 1] == x;
  }

  lemma {:induction false} RenderOfConcat(a: seq<SvgLine>, b: seq<SvgLine>)
    ensures Render(a + b) == Render(a) + Render(b)
    decreases |b|
  {
    if b == [] {
      assert a + b == a;
    } else {
      var init, x := b[..|b| - 1], b[|b| - 1];
      assert b == init + [x];
      assert a + b == (a + init) + [x];
      RenderOfConcat(a, init);
      RenderSnoc(a + init, x);
      RenderSnoc(init, x);
      AppendIsAssociative(Render(a), Render(init), RenderLine(x));
    }
  }

  lemma AppendIsAssociative(x: string, y: string, z: string)
    ensures (x + y) + z == x + (y + z)
  {
  }

  const XmlDeclaration := "<?xml version=\"1.0\" encoding=\"UTF-8\" standalone=\"no\"?>\n"

  /** The document's opening: the XML declaration, the sized `svg` element and the scaling group. */
  function Header(w: string, h: string, scale: string): (r: string)
    ensures |XmlDeclaration| <= |r| && r[..|XmlDeclaration|] == XmlDeclaration
  {
    var rest := "<svg width=\"" + w + "px\" height=\"" + h + "px\" viewBox=\"0 0 " + w + " " + h
      + "\" xmlns=\"http://www.w3.org/2000/svg\">\n  <g transform=\"scale(" + scale + ")\">\n";
    assert (XmlDeclaration + rest)[..|XmlDeclaration|] == XmlDeclaration;
    XmlDeclaration + rest
  }

  const Footer := "  </g>\n</svg>"

  /** A document dimension: the size floored at 0.1, times the SVG scale. */
  function SvgSize(size: real, scale: real): (r: real)
    ensures scale >= 0.0 ==> r >= MinDimension * scale
    ensures size >= MinDimension ==> r == size * scale
    ensures size < MinDimension ==> r == MinDimension * scale
  {
    Max(MinDimension, size) * scale
  }

  /** Every spline of every object meets the path writer's demands. */
  predicate CurvesDrawable(curves: seq<NormalizedCurve>) {
    forall i, j :: 0 <= i < |curves| && 0 <= j < |curves[i].splines| ==> AllDrawable(curves[i].splines[j])
  }

  /** One `path` line, in the object's style, per spline whose path data is not empty. */
  function SplinePaths(splines: seq<Spline>, style: PathStyle, settings: ExportSettings): (r: seq<SvgLine>)
    requires forall j :: 0 <= j < |splines| ==> AllDrawable(splines[j])
    ensures |r| <= |splines|
    ensures forall k :: 0 <= k < |r| ==> r[k].PathLine? && r[k].style == style && r[k].d != []
  {
    if splines == [] then []
    else
      var last := splines[|splines| - 1];
      var pathData := PathData(last, settings.precision, settings.useCommaSeparator);
      SplinePaths(splines[..|splines| - 1], style, settings)
      + (if pathData != [] then [PathLine(pathData, style)] else [])
  }

  /** A spline's path data; the writer only ever meets drawable splines. */
  function DrawnText(spline: Spline, settings: ExportSettings): string {
    if AllDrawable(spline) then PathData(spline, settings.precision, settings.useCommaSeparator) else ""
  }

  /** Whether a spline's path data is non-empty. */
  function HasPathData(settings: ExportSettings): Spline -> bool {
    s => DrawnText(s, settings) != []
  }

  /** The `path` line of a spline in the given style. */
  function PathLineOf(style: PathStyle, settings: ExportSettings): Spline -> SvgLine {
    s => PathLine(DrawnText(s, settings), style)
  }

  /**
   * The `path` lines are those of exactly the splines with non-empty path
   * data, in spline order, each carrying its own spline's path data.
   */
  lemma {:induction false} SplinePathsSelect(splines: seq<Spline>, style: PathStyle, settings: ExportSettings)
    requires forall j :: 0 <= j < |splines| ==> AllDrawable(splines[j])
    ensures exists ks ::
      Selects(splines, HasPathData(settings), PathLineOf(style, settings), ks, SplinePaths(splines, style, settings))
  {
    if splines == [] {
      SelectsNothing(splines, HasPathData(settings), PathLineOf(style, settings));
      assert Selects(splines, HasPathData(settings), PathLineOf(style, settings), [], SplinePaths(splines, style, settings));
    } else {
      var init := splines[..|splines| - 1];
      SplinePathsSelect(init, style, settings);
      var ks :| Selects(init, HasPathData(settings), PathLineOf(style, settings), ks, SplinePaths(init, style, settings));
      SplinePathsSnoc(splines, style, settings);
      var ks' := SelectsStep(splines, HasPathData(settings), PathLineOf(style, settings), ks,
                             SplinePaths(init, style, settings), SplinePaths(splines, style, settings));
    }
  }

  /** One more spline adds its own path line, unless its path data is empty. */
  lemma SplinePathsSnoc(splines: seq<Spline>, style: PathStyle, settings: ExportSettings)
    requires splines != [] && forall j :: 0 <= j < |splines| ==> AllDrawable(splines[j])
    ensures var last := PathData(splines[|splines| - 1], settings.precision, settings.useCommaSeparator);
      SplinePaths(splines, style, settings) ==
      SplinePaths(splines[..|splines| - 1], style, settings) + (if last != [] then [PathLine(last, style)] else [])
  {
  }

  /** The `path` lines of all objects, each object in its own style. */
  function CurvePaths(curves: seq<NormalizedCurve>, settings: ExportSettings, repr: real -> string): (r: seq<SvgLine>)
    requires CurvesDrawable(curves)
    ensures forall k :: 0 <= k < |r| ==> r[k].PathLine?
  {
    if curves == [] then []
    else
      var last := curves[|curves| - 1];
      assert CurvesDrawable(curves[..|curves| - 1]);
      CurvePaths(curves[..|curves| - 1], settings, repr)
      + SplinePaths(last.splines, StyleOf(last.style, settings, repr), settings)
  }

  /** The circle of one minimap coordinate, its centre scaled by the SVG scale. */
  function MarkerOf(p: GPointF, settings: ExportSettings, repr: real -> string): SvgLine {
    Marker(FixedPoint(p.x * settings.svgScale, 2), FixedPoint(p.y * settings.svgScale, 2),
           repr(settings.markerSize), settings.markerColor)
  }

  /** One marker circle per minimap coordinate, in order. */
  function MarkerLines(coords: seq<GPointF>, settings: ExportSettings, repr: real -> string): (r: seq<SvgLine>)
    ensures |r| == |coords|
    ensures forall i :: 0 <= i < |r| ==> r[i] == MarkerOf(coords[i], settings, repr)
  {
    seq(|coords|, i requires 0 <= i < |coords| => MarkerOf(coords[i], settings, repr))
  }

  /**
   * The two lines shown instead of paths when there is no curve data, for a
   * document of the given size in unscaled units: a dashed frame over all of
   * it and a text at its centre.
   */
  function NoDataNotice(width: real, height: real): (r: seq<SvgLine>)
    ensures |r| == 2 && r[0].NoDataRect? && r[1].NoDataText?
  {
    [NoticeFrame(width, height), NoticeText(width, height)]
  }

  function NoticeFrame(width: real, height: real): SvgLine {
    NoDataRect(FixedPoint(width, 2), FixedPoint(height, 2))
  }

  function NoticeText(width: real, height: real): SvgLine {
    NoDataText(FixedPoint(width / 2.0, 2), FixedPoint(height / 2.0, 2))
  }

  /**
   * The body of the document: the no-data notice when there are no objects,
   * the objects' paths otherwise; then, when markers are shown, the marker
   * circles and their note. The notice divides by the SVG scale.
   */
  function Elements(dimensions: Dimensions, curves: seq<NormalizedCurve>, settings: ExportSettings,
                    coords: seq<GPointF>, repr: real -> string): seq<SvgLine>
    requires CurvesDrawable(curves)
    requires curves == [] ==> settings.svgScale != 0.0
  {
    var scale := settings.svgScale;
    var width := SvgSize(dimensions.widthSvg, scale);
    var height := SvgSize(dimensions.heightSvg, scale);
    (if curves == [] then NoDataNotice(width / scale, height / scale) else CurvePaths(curves, settings, repr))
    + (if settings.showMarkers then MarkerLines(coords, settings, repr) + [MarkerNote] else [])
  }

  /** The header for the scaled document size, with sizes written to two decimals. */
  function DocumentHeader(dimensions: Dimensions, settings: ExportSettings, repr: real -> string): string {
    Header(FixedPoint(SvgSize(dimensions.widthSvg, settings.svgScale), 2),
           FixedPoint(SvgSize(dimensions.heightSvg, settings.svgScale), 2), repr(settings.svgScale))
  }

  /**
   * `generate_svg_content`: the header, the body lines and the closing tags.
   * The document opens with the XML declaration and closes the group and
   * the `svg` element.
   */
  function SvgDocument(dimensions: Dimensions, curves: seq<NormalizedCurve>, settings: ExportSettings,
                       coords: seq<GPointF>, repr: real -> string): (doc: string)
    requires CurvesDrawable(curves)
    requires curves == [] ==> settings.svgScale != 0.0
    ensures |doc| >= |XmlDeclaration| + |Footer|
    ensures doc[..|XmlDeclaration|] == XmlDeclaration
    ensures doc[|doc| - |Footer|..] == Footer
  {
    var header := DocumentHeader(dimensions, settings, repr);
    var body := Render(Elements(dimensions, curves, settings, coords, repr));
    PrefixSurvivesAppend(XmlDeclaration, header, body);
    PrefixSurvivesAppend(XmlDeclaration, header + body, Footer);
    SuffixOfAppend(header + body, Footer);
    header + body + Footer
  }

  /** Builds the document as the source does, appending line after line. */
  method GenerateSvgContent(dimensions: Dimensions, curves: seq<NormalizedCurve>, settings: ExportSettings,
                            coords: seq<GPointF>, repr: real -> string) returns (svg: string)
    requires CurvesDrawable(curves)
    requires curves == [] ==> settings.svgScale != 0.0
    ensures svg == SvgDocument(dimensions, curves, settings, coords, repr)
  {
    var scale := settings.svgScale;
    var width := SvgSize(dimensions.widthSvg, scale);
    var height := SvgSize(dimensions.heightSvg, scale);
    var header := Header(FixedPoint(width, 2), FixedPoint(height, 2), repr(scale));
    ghost var body := if curves == [] then NoDataNotice(width / scale, height / scale) else CurvePaths(curves, settings, repr);
    ghost var markers := if settings.showMarkers then MarkerLines(coords, settings, repr) + [MarkerNote] else [];
    if curves == [] {
      svg := AppendNotice(header, width / scale, height / scale);
    } else {
      svg := AppendCurvePaths(header, curves, settings, repr);
    }
    if settings.showMarkers {
      svg := AppendMarkers(svg, coords, settings, repr);
    } else {
      NothingAppended(svg);
    }
    DocumentAssembly(header, body, markers);
    svg := svg + Footer;
  }

  /** The header, the body and the markers, closed by the footer, are the header, both line lists and the footer. */
  lemma DocumentAssembly(header: string, body: seq<SvgLine>, markers: seq<SvgLine>)
    ensures (header + Render(body)) + Render(markers) + Footer == header + Render(body + markers) + Footer
  {
    RenderOfConcat(body, markers);
    AppendIsAssociative(header, Render(body), Render(markers));
  }

  lemma NothingAppended(text: string)
    ensures text == text + Render([])
  {
    assert text + [] == text;
  }

  /**
   * The branch for no curve data, given the document size divided by the
   * SVG scale: the dashed frame, then the text at half that size.
   */
  method AppendNotice(start: string, width: real, height: real) returns (svg: string)
    ensures svg == start + Render(NoDataNotice(width, height))
  {
    var frame := NoticeFrame(width, height);
    svg := start + RenderLine(frame);
    var text := NoticeText(width, height);
    svg := svg + RenderLine(text);
    RenderTwo(start, NoDataNotice(width, height));
  }

  /** Two lines appended one after the other render as the pair. */
  lemma RenderTwo(start: string, lines: seq<SvgLine>)
    requires |lines| == 2
    ensures (start + RenderLine(lines[0])) + RenderLine(lines[1]) == start + Render(lines)
  {
    RenderNone(start, lines);
    RenderStep(start, lines, 0);
    RenderStep(start, lines, 1);
    RenderWhole(start, lines);
  }

  lemma RenderNone(start: string, lines: seq<SvgLine>)
    ensures start == start + Render(lines[..0])
  {
    assert lines[..0] == [];
    assert start + [] == start;
  }

  lemma RenderWhole(start: string, lines: seq<SvgLine>)
    ensures start + Render(lines[..|lines|]) == start + Render(lines)
  {
    assert lines[..|lines|] == lines;
  }

  /** One step of a loop that renders `lines` in order. */
  lemma RenderStep(start: string, lines: seq<SvgLine>, i: nat)
    requires i < |lines|
    ensures (start + Render(lines[..i])) + RenderLine(lines[i]) == start + Render(lines[..i + 1])
  {
    assert lines[..i + 1] == lines[..i] + [lines[i]];
    RenderSnoc(lines[..i], lines[i]);
    AppendIsAssociative(start, Render(lines[..i]), RenderLine(lines[i]));
  }

  /** The loop over objects and their splines: appends one `path` line per non-empty path. */
  method AppendCurvePaths(start: string, curves: seq<NormalizedCurve>, settings: ExportSettings,
                          repr: real -> string) returns (svg: string)
    requires CurvesDrawable(curves)
    ensures svg == start + Render(CurvePaths(curves, settings, repr))
  {
    svg := start;
    for i := 0 to |curves|
      invariant svg == start + Render(CurvePaths(curves[..i], settings, repr))
    {
      var style := StyleOf(curves[i].style, settings, repr);
      ghost var done := CurvePaths(curves[..i], settings, repr);
      ghost var added := SplinePaths(curves[i].splines, style, settings);
      CurvePathsStep(curves, i, settings, repr);
      svg := AppendSplinePaths(svg, curves[i].splines, style, settings);
      RenderOfConcat(done, added);
      AppendIsAssociative(start, Render(done), Render(added));
    }
    assert curves[..|curves|] == curves;
  }

  /** The inner loop over one object's splines. */
  method AppendSplinePaths(start: string, splines: seq<Spline>, style: PathStyle, settings: ExportSettings)
    returns (svg: string)
    requires forall j :: 0 <= j < |splines| ==> AllDrawable(splines[j])
    ensures svg == start + Render(SplinePaths(splines, style, settings))
  {
    svg := start;
    for j := 0 to |splines|
      invariant svg == start + Render(SplinePaths(splines[..j], style, settings))
    {
      ghost var done := SplinePaths(splines[..j], style, settings);
      var pathData := GeneratePathData(splines[j], settings.precision, settings.useCommaSeparator);
      SplinePathsStep(splines, j, style, settings);
      if pathData != [] {
        svg := svg + RenderLine(PathLine(pathData, style));
        RenderSnoc(done, PathLine(pathData, style));
        AppendIsAssociative(start, Render(done), RenderLine(PathLine(pathData, style)));
      } else {
        assert done + [] == done;
      }
    }
    assert splines[..|splines|] == splines;
  }

  /** One more object adds its own splines' paths after the earlier objects' paths. */
  lemma CurvePathsStep(curves: seq<NormalizedCurve>, i: nat, settings: ExportSettings, repr: real -> string)
    requires CurvesDrawable(curves) && i < |curves|
    ensures CurvesDrawable(curves[..i]) && CurvesDrawable(curves[..i + 1])
    ensures CurvePaths(curves[..i + 1], settings, repr)
         == CurvePaths(curves[..i], settings, repr)
            + SplinePaths(curves[i].splines, StyleOf(curves[i].style, settings, repr), settings)
  {
    assert curves[..i + 1][..i] == curves[..i];
  }

  /** One more spline adds its path, unless its path data is empty. */
  lemma SplinePathsStep(splines: seq<Spline>, j: nat, style: PathStyle, settings: ExportSettings)
    requires j < |splines| && forall k :: 0 <= k < |splines| ==> AllDrawable(splines[k])
    ensures var pathData := PathData(splines[j], settings.precision, settings.useCommaSeparator);
            SplinePaths(splines[..j + 1], style, settings)
            == SplinePaths(splines[..j], style, settings) + (if pathData != [] then [PathLine(pathData, style)] else [])
  {
    assert splines[..j + 1][..j] == splines[..j];
  }

  /** The marker loop: one circle per coordinate, then the note. */
  method AppendMarkers(start: string, coords: seq<GPointF>, settings: ExportSettings, repr: real -> string)
    returns (svg: string)
    ensures svg == start + Render(MarkerLines(coords, settings, repr) + [MarkerNote])
  {
    ghost var lines := MarkerLines(coords, settings, repr);
    svg := start;
    for i := 0 to |coords|
      invariant svg == start + Render(lines[..i])
    {
      var marker := MarkerOf(coords[i], settings, repr);
      assert lines[i] == MarkerOf(coords[i], settings, repr);
      RenderStep(start, lines, i);
      svg := svg + RenderLine(marker);
    }
    RenderLast(start, lines, MarkerNote);
    svg := svg + RenderLine(MarkerNote);
  }

  lemma RenderLast(start: string, lines: seq<SvgLine>, last: SvgLine)
    ensures (start + Render(lines[..|lines|])) + RenderLine(last) == start + Render(lines + [last])
  {
    assert lines[..|lines|] == lines;
    RenderSnoc(lines, last);
    AppendIsAssociative(start, Render(lines), RenderLine(last));
  }

  // ---------------------------------------------------------------------------
  // Properties of the document

  lemma PrefixSurvivesAppend(p: string, a: string, b: string)
    requires |p| <= |a| && a[..|p|] == p
    ensures |p| <= |a + b| && (a + b)[..|p|] == p
  {
    assert (a + b)[..|p|] == a[..|p|];
  }

  lemma SuffixOfAppend(a: string, b: string)
    ensures (a + b)[|a + b| - |b|..] == b
  {
  }

  /**
   * With no objects the body opens with the notice drawn at the unscaled
   * document size: the scaled size divided by the scale again. That the
   * body then holds no path is `DocumentCounts` with no objects.
   */
  lemma EmptyDataShowsNotice(dimensions: Dimensions, settings: ExportSettings,
                             coords: seq<GPointF>, repr: real -> string)
    requires settings.svgScale != 0.0
    ensures var body := Elements(dimensions, [], settings, coords, repr);
      && |body| >= 2
      && body[..2] == NoDataNotice(Max(MinDimension, dimensions.widthSvg), Max(MinDimension, dimensions.heightSvg))
  {
    var scale := settings.svgScale;
    ghost var markers := if settings.showMarkers then MarkerLines(coords, settings, repr) + [MarkerNote] else [];
    NoticeUnscaled(dimensions.widthSvg, dimensions.heightSvg, scale);
    PrefixOfConcat(NoDataNotice(Max(MinDimension, dimensions.widthSvg), Max(MinDimension, dimensions.heightSvg)), markers);
  }

  /** Dividing a document size by the scale it was multiplied by gives back the floored size. */
  lemma NoticeUnscaled(width: real, height: real, scale: real)
    requires scale != 0.0
    ensures NoDataNotice(SvgSize(width, scale) / scale, SvgSize(height, scale) / scale)
         == NoDataNotice(Max(MinDimension, width), Max(MinDimension, height))
  {
    UnscaleCancels(Max(MinDimension, width), scale);
    UnscaleCancels(Max(MinDimension, height), scale);
    assert SvgSize(width, scale) / scale == Max(MinDimension, width);
    assert SvgSize(height, scale) / scale == Max(MinDimension, height);
  }

  lemma UnscaleCancels(v: real, scale: real)
    requires scale != 0.0
    ensures v * scale / scale == v
  {
  }

  lemma PrefixOfConcat(a: seq<SvgLine>, b: seq<SvgLine>)
    ensures |a + b| >= |a| && (a + b)[..|a|] == a
  {
  }

  /** The number of `path` lines. */
  function PathCount(lines: seq<SvgLine>): nat {
    if lines == [] then 0
    else PathCount(lines[..|lines| - 1]) + (if lines[|lines| - 1].PathLine? then 1 else 0)
  }

  /** The number of marker circles. */
  function MarkerCount(lines: seq<SvgLine>): nat {
    if lines == [] then 0
    else MarkerCount(lines[..|lines| - 1]) + (if lines[|lines| - 1].Marker? then 1 else 0)
  }

  lemma {:induction false} CountsOfConcat(a: seq<SvgLine>, b: seq<SvgLine>)
    ensures PathCount(a + b) == PathCount(a) + PathCount(b)
    ensures MarkerCount(a + b) == MarkerCount(a) + MarkerCount(b)
    decreases |b|
  {
    if b == [] {
      assert a + b == a;
    } else {
      assert (a + b)[..|a + b| - 1] == a + b[..|b| - 1];
      CountsOfConcat(a, b[..|b| - 1]);
    }
  }

  lemma NoticeCounts(notice: seq<SvgLine>)
    requires |notice| == 2 && notice[0].NoDataRect? && notice[1].NoDataText?
    ensures PathCount(notice) == 0 && MarkerCount(notice) == 0
  {
    assert notice == [notice[0]] + [notice[1]];
    SingleCounts(notice[0]);
    SingleCounts(notice[1]);
    CountsOfConcat([notice[0]], [notice[1]]);
  }

  lemma SingleCounts(line: SvgLine)
    ensures PathCount([line]) == (if line.PathLine? then 1 else 0)
    ensures MarkerCount([line]) == (if line.Marker? then 1 else 0)
  {
    assert [line][..0] == [];
  }

  /** How many splines of the objects have at least one M, L or C segment. */
  function DrawnSplines(curves: seq<NormalizedCurve>): nat {
    if curves == [] then 0
    else DrawnSplines(curves[..|curves| - 1]) + DrawnIn(curves[|curves| - 1].splines)
  }

  function DrawnIn(splines: seq<Spline>): nat {
    if splines == [] then 0
    else DrawnIn(splines[..|splines| - 1]) + (if KnownKinds(splines[|splines| - 1]) != [] then 1 else 0)
  }

  lemma {:induction false} SplinePathsCount(splines: seq<Spline>, style: PathStyle, settings: ExportSettings)
    requires forall j :: 0 <= j < |splines| ==> AllDrawable(splines[j])
    ensures PathCount(SplinePaths(splines, style, settings)) == DrawnIn(splines)
    ensures MarkerCount(SplinePaths(splines, style, settings)) == 0
    decreases |splines|
  {
    if splines != [] {
      var init := splines[..|splines| - 1];
      var last := splines[|splines| - 1];
      SplinePathsCount(init, style, settings);
      var pathData := PathData(last, settings.precision, settings.useCommaSeparator);
      var tail := if pathData != [] then [PathLine(pathData, style)] else [];
      CountsOfConcat(SplinePaths(init, style, settings), tail);
      assert pathData != [] <==> KnownKinds(last) != [];
      if tail != [] {
        assert tail[..0] == [];
      }
    }
  }

  lemma {:induction false} CurvePathsCount(curves: seq<NormalizedCurve>, settings: ExportSettings, repr: real -> string)
    requires CurvesDrawable(curves)
    ensures PathCount(CurvePaths(curves, settings, repr)) == DrawnSplines(curves)
    ensures MarkerCount(CurvePaths(curves, settings, repr)) == 0
    decreases |curves|
  {
    if curves != [] {
      var init := curves[..|curves| - 1];
      var last := curves[|curves| - 1];
      assert CurvesDrawable(init);
      CurvePathsCount(init, settings, repr);
      var style := StyleOf(last.style, settings, repr);
      SplinePathsCount(last.splines, style, settings);
      CountsOfConcat(CurvePaths(init, settings, repr), SplinePaths(last.splines, style, settings));
    }
  }

  lemma {:induction false} MarkerLinesCount(lines: seq<SvgLine>)
    requires forall k :: 0 <= k < |lines| ==> lines[k].Marker?
    ensures MarkerCount(lines) == |lines| && PathCount(lines) == 0
    decreases |lines|
  {
    if lines != [] {
      MarkerLinesCount(lines[..|lines| - 1]);
    }
  }

  /**
   * The document has one `path` per spline that has at least one M, L or C
   * segment, and one marker circle per coordinate exactly when markers are
   * shown (none otherwise).
   */
  lemma DocumentCounts(dimensions: Dimensions, curves: seq<NormalizedCurve>, settings: ExportSettings,
                       coords: seq<GPointF>, repr: real -> string)
    requires CurvesDrawable(curves)
    requires curves == [] ==> settings.svgScale != 0.0
    ensures var body := Elements(dimensions, curves, settings, coords, repr);
      && PathCount(body) == DrawnSplines(curves)
      && MarkerCount(body) == (if settings.showMarkers then |coords| else 0)
  {
    var scale := settings.svgScale;
    var width := SvgSize(dimensions.widthSvg, scale);
    var height := SvgSize(dimensions.heightSvg, scale);
    var paths := if curves == [] then NoDataNotice(width / scale, height / scale) else CurvePaths(curves, settings, repr);
    var markers := if settings.showMarkers then MarkerLines(coords, settings, repr) + [MarkerNote] else [];
    if curves == [] {
      NoticeCounts(paths);
    } else {
      CurvePathsCount(curves, settings, repr);
    }
    if settings.showMarkers {
      var lines := MarkerLines(coords, settings, repr);
      MarkerLinesCount(lines);
      SingleCounts(MarkerNote);
      CountsOfConcat(lines, [MarkerNote]);
    }
    CountsOfConcat(paths, markers);
  }
}
