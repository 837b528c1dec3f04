/**
 * Mapping between the three coordinate systems of the minimap tool: editor
 * (Blender) space, game world space and the Scaleform minimap. A calculator
 * fixes the world bounds and minimap size when it is made and never changes
 * afterwards, so it is a value. The calculation cache that every method
 * consults is a memo of these pure results and is not part of this module.
 */
module MinimapCalculator {
  import opened Wrappers
  import opened GeometryBase

  /** World bounds of the game map, as (min_x, max_x, min_y, max_y). */
  const WorldBounds: (real, real, real, real) := (-4000.0, 4000.0, -4000.0, 4000.0)

  /** Default minimap size, as (width, height). */
  const MinimapSize: (real, real) := (300.0, 300.0)

  /** 1/x, or 0 for a zero span (the division is skipped rather than raised). */
  function InverseOrZero(x: real): (r: real)
    ensures x != 0.0 ==> r * x == 1.0
    ensures x == 0.0 ==> r == 0.0
    ensures x > 0.0 ==> r > 0.0
    ensures x < 0.0 ==> r < 0.0
  {
    if x != 0.0 then 1.0 / x else 0.0
  }

  /** max(0, min(v, hi)). */
  function Clamp(v: real, hi: real): (r: real)
    ensures r >= 0.0
    ensures hi >= 0.0 ==> r <= hi
    ensures 0.0 <= v <= hi ==> r == v
    ensures v <= 0.0 ==> r == 0.0
  {
    Max(0.0, Min(v, hi))
  }

  datatype Calculator = Calculator(
    worldMinX: real, worldMaxX: real, worldMinY: real, worldMaxY: real,
    minimapWidth: real, minimapHeight: real,
    worldWidth: real, worldHeight: real,
    invWorldWidth: real, invWorldHeight: real)
  {
    /** The derived fields agree with the bounds they were computed from. */
    predicate Valid() {
      && worldWidth == worldMaxX - worldMinX
      && worldHeight == worldMaxY - worldMinY
      && invWorldWidth == InverseOrZero(worldWidth)
      && invWorldHeight == InverseOrZero(worldHeight)
    }

    /**
     * World position to minimap position: normalise within the world bounds,
     * flip Y (the minimap origin is its top-left corner), scale to the
     * minimap size and clamp to it. Z plays no part.
     */
    function WorldToMinimap(position: Vector3): (r: Vector2)
      ensures minimapWidth >= 0.0 ==> 0.0 <= r.x <= minimapWidth
      ensures minimapHeight >= 0.0 ==> 0.0 <= r.y <= minimapHeight
    {
      var normX := (position.x - worldMinX) * invWorldWidth;
      var normY := (position.y - worldMinY) * invWorldHeight;
      Vector2(Clamp(normX * minimapWidth, minimapWidth), Clamp((1.0 - normY) * minimapHeight, minimapHeight))
    }

    /**
     * Minimap position back to a world position at Z = 0. A zero minimap
     * width or height makes the division fail; that failure is None.
     */
    function MinimapToWorld(minimapPos: Vector2): (r: Option<Vector3>)
      ensures r.None? <==> minimapWidth == 0.0 || minimapHeight == 0.0
      ensures r.Some? ==> r.value.z == 0.0
    {
      if minimapWidth == 0.0 || minimapHeight == 0.0 then None
      else
        var normX := minimapPos.x / minimapWidth;
        var normY := 1.0 - minimapPos.y / minimapHeight;
        Some(Vector3(worldMinX + normX * worldWidth, worldMinY + normY * worldHeight, 0.0))
    }

    /** Every position's minimap image next to its world coordinates, in order. */
    function GenerateScaleformData(positions: seq<Vector3>): (r: seq<MinimapEntry>)
      ensures |r| == |positions|
      ensures forall i :: 0 <= i < |r| ==>
        r[i].worldX == positions[i].x && r[i].worldY == positions[i].y && r[i].worldZ == positions[i].z
      ensures forall i :: 0 <= i < |r| ==> Vector2(r[i].x, r[i].y) == WorldToMinimap(positions[i])
      ensures minimapWidth >= 0.0 && minimapHeight >= 0.0 ==>
        forall i :: 0 <= i < |r| ==> 0.0 <= r[i].x <= minimapWidth && 0.0 <= r[i].y <= minimapHeight
    {
      seq(|positions|, i requires 0 <= i < |positions| =>
        var m := WorldToMinimap(positions[i]);
        MinimapEntry(m.x, m.y, positions[i].x, positions[i].y, positions[i].z))
    }
  }

  /** One entry of the marker data: minimap x/y and the world position it came from. */
  datatype MinimapEntry = MinimapEntry(x: real, y: real, worldX: real, worldY: real, worldZ: real)

  /** A calculator for the given (min_x, max_x, min_y, max_y) bounds and (width, height) size. */
  function NewCalculator(worldBounds: (real, real, real, real), minimapSize: (real, real)): (c: Calculator)
    ensures c.Valid()
    ensures c.worldMinX == worldBounds.0 && c.worldMaxX == worldBounds.1
    ensures c.worldMinY == worldBounds.2 && c.worldMaxY == worldBounds.3
    ensures c.minimapWidth == minimapSize.0 && c.minimapHeight == minimapSize.1
  {
    var width := worldBounds.1 - worldBounds.0;
    var height := worldBounds.3 - worldBounds.2;
    Calculator(worldBounds.0, worldBounds.1, worldBounds.2, worldBounds.3,
               minimapSize.0, minimapSize.1, width, height,
               InverseOrZero(width), InverseOrZero(height))
  }

  /**
   * Editor position to Scaleform position: editor Y becomes Scaleform X,
   * editor -Z becomes Scaleform Y, both scaled, then the SVG's scaled
   * half-size is subtracted to centre it.
   */
  function BlenderToScaleform(position: Vector3, svgScale: real, svgWidth: real, svgHeight: real): (r: Vector2)
    ensures svgScale != 0.0 ==>
      position.y == r.x / svgScale + svgWidth / 2.0 && position.z == -(r.y / svgScale) - svgHeight / 2.0
  {
    var scaleformX := position.y * svgScale;
    var scaleformY := -position.z * svgScale;
    Vector2(scaleformX - svgWidth * svgScale / 2.0, scaleformY - svgHeight * svgScale / 2.0)
  }

  /** The editor point at the SVG's half-size lands on the Scaleform origin. */
  lemma BlenderToScaleformCentres(x: real, s: real, w: real, h: real)
    ensures BlenderToScaleform(Vector3(x, w / 2.0, -h / 2.0), s, w, h) == Vector2(0.0, 0.0)
  {
  }

  /** The editor X coordinate never reaches the Scaleform position. */
  lemma BlenderToScaleformIgnoresX(p: Vector3, q: Vector3, s: real, w: real, h: real)
    requires p.y == q.y && p.z == q.z
    ensures BlenderToScaleform(p, s, w, h) == BlenderToScaleform(q, s, w, h)
  {
  }

  /**
   * The remap is affine: the difference of two images is the editor (Y, -Z)
   * difference scaled by the SVG scale, whatever the SVG size.
   */
  lemma BlenderToScaleformDifference(p: Vector3, q: Vector3, s: real, w: real, h: real)
    ensures BlenderToScaleform(p, s, w, h).x - BlenderToScaleform(q, s, w, h).x == (p.y - q.y) * s
    ensures BlenderToScaleform(p, s, w, h).y - BlenderToScaleform(q, s, w, h).y == -(p.z - q.z) * s
  {
  }

  /** The world's (min_x, min_y) corner is the minimap's bottom-left, (max_x, max_y) its top-right. */
  lemma CornersFlipY(c: Calculator, z: real)
    requires c.Valid() && c.worldWidth != 0.0 && c.worldHeight != 0.0
    requires c.minimapWidth >= 0.0 && c.minimapHeight >= 0.0
    ensures c.WorldToMinimap(Vector3(c.worldMinX, c.worldMinY, z)) == Vector2(0.0, c.minimapHeight)
    ensures c.WorldToMinimap(Vector3(c.worldMaxX, c.worldMaxY, z)) == Vector2(c.minimapWidth, 0.0)
  {
    assert (c.worldMaxX - c.worldMinX) * c.invWorldWidth == 1.0;
    assert (c.worldMaxY - c.worldMinY) * c.invWorldHeight == 1.0;
  }

  /** A zero world span pins that coordinate: x to 0, y to the minimap height. */
  lemma ZeroSpanPinsCoordinate(c: Calculator, p: Vector3)
    requires c.Valid()
    ensures c.worldWidth == 0.0 ==> c.WorldToMinimap(p).x == 0.0
    ensures c.worldHeight == 0.0 && c.minimapHeight >= 0.0 ==> c.WorldToMinimap(p).y == c.minimapHeight
  {
  }

  /** Normalising a coordinate inside its span gives a fraction in [0, 1]. */
  lemma NormalisedInUnit(v: real, lo: real, span: real, inv: real)
    requires span > 0.0 && inv * span == 1.0 && lo <= v <= lo + span
    ensures 0.0 <= (v - lo) * inv <= 1.0
    ensures lo + (v - lo) * inv * span == v
  {
    assert inv > 0.0;
    assert (v - lo) * inv <= span * inv;
    assert (v - lo) * inv * span == (v - lo) * (inv * span);
  }

  /** A fraction in [0, 1] scaled to a positive size is unclamped and scales back. */
  lemma ScaledFraction(n: real, size: real)
    requires 0.0 <= n <= 1.0 && size > 0.0
    ensures Clamp(n * size, size) == n * size
    ensures n * size / size == n
  {
    assert 0.0 <= n * size <= 1.0 * size;
    MulDivCancel(n, size);
  }

  lemma MulDivCancel(x: real, y: real)
    requires y != 0.0
    ensures x * y / y == x
  {
  }

  /** One axis of the round trip: normalise, scale, clamp, unscale, denormalise. */
  lemma AxisRoundTrip(v: real, lo: real, span: real, inv: real, size: real)
    requires span > 0.0 && inv * span == 1.0 && lo <= v <= lo + span && size > 0.0
    ensures lo + Clamp((v - lo) * inv * size, size) / size * span == v
  {
    NormalisedInUnit(v, lo, span, inv);
    ScaledFraction((v - lo) * inv, size);
  }

  /** The same for the flipped axis, which scales 1 - n rather than n. */
  lemma FlippedAxisRoundTrip(v: real, lo: real, span: real, inv: real, size: real)
    requires span > 0.0 && inv * span == 1.0 && lo <= v <= lo + span && size > 0.0
    ensures lo + (1.0 - Clamp((1.0 - (v - lo) * inv) * size, size) / size) * span == v
  {
    var n := (v - lo) * inv;
    NormalisedInUnit(v, lo, span, inv);
    ScaledFraction(1.0 - n, size);
  }

  /** One axis of the reverse trip: denormalise, then normalise again. */
  lemma AxisRoundTripBack(m: real, lo: real, span: real, inv: real, size: real)
    requires span != 0.0 && inv * span == 1.0 && size != 0.0
    ensures (lo + m / size * span - lo) * inv == m / size
    ensures m / size * size == m
  {
    assert (m / size * span) * inv == (m / size) * (span * inv);
  }

  /**
   * For a position inside the world bounds, with non-empty bounds and a
   * positive minimap size, mapping to the minimap and back recovers the
   * position's X and Y at Z = 0.
   */
  lemma WorldRoundTrip(c: Calculator, p: Vector3)
    requires c.Valid()
    requires c.worldMinX < c.worldMaxX && c.worldMinY < c.worldMaxY
    requires c.minimapWidth > 0.0 && c.minimapHeight > 0.0
    requires c.worldMinX <= p.x <= c.worldMaxX && c.worldMinY <= p.y <= c.worldMaxY
    ensures c.MinimapToWorld(c.WorldToMinimap(p)) == Some(Vector3(p.x, p.y, 0.0))
  {
    WorldRoundTripX(c, p);
    WorldRoundTripY(c, p);
    var m := c.WorldToMinimap(p);
    BackToWorld(c, m.x, m.y, p);
  }

  lemma WorldRoundTripX(c: Calculator, p: Vector3)
    requires c.Valid() && c.worldMinX < c.worldMaxX && c.minimapWidth > 0.0 && c.worldMinX <= p.x <= c.worldMaxX
    ensures c.worldMinX + c.WorldToMinimap(p).x / c.minimapWidth * c.worldWidth == p.x
  {
    WorldToMinimapParts(c, p);
    AxisRoundTrip(p.x, c.worldMinX, c.worldWidth, c.invWorldWidth, c.minimapWidth);
  }

  lemma WorldRoundTripY(c: Calculator, p: Vector3)
    requires c.Valid() && c.worldMinY < c.worldMaxY && c.minimapHeight > 0.0 && c.worldMinY <= p.y <= c.worldMaxY
    ensures c.worldMinY + (1.0 - c.WorldToMinimap(p).y / c.minimapHeight) * c.worldHeight == p.y
  {
    WorldToMinimapParts(c, p);
    FlippedAxisRoundTrip(p.y, c.worldMinY, c.worldHeight, c.invWorldHeight, c.minimapHeight);
  }

  lemma WorldToMinimapParts(c: Calculator, p: Vector3)
    ensures c.WorldToMinimap(p) == Vector2(
              Clamp((p.x - c.worldMinX) * c.invWorldWidth * c.minimapWidth, c.minimapWidth),
              Clamp((1.0 - (p.y - c.worldMinY) * c.invWorldHeight) * c.minimapHeight, c.minimapHeight))
  {
  }

  /** The way back for a minimap point whose two axes each return to the position. */
  lemma BackToWorld(c: Calculator, mx: real, my: real, p: Vector3)
    requires c.minimapWidth != 0.0 && c.minimapHeight != 0.0
    requires c.worldMinX + mx / c.minimapWidth * c.worldWidth == p.x
    requires c.worldMinY + (1.0 - my / c.minimapHeight) * c.worldHeight == p.y
    ensures c.MinimapToWorld(Vector2(mx, my)) == Some(Vector3(p.x, p.y, 0.0))
  {
    var r := c.MinimapToWorld(Vector2(mx, my));
    assert r.value.x == p.x;
    assert r.value.y == p.y;
    assert r.value == Vector3(p.x, p.y, 0.0);
  }

  lemma ComplementOverSize(y: real, size: real)
    requires size != 0.0
    ensures 1.0 - y / size == (size - y) / size
    ensures (1.0 - (size - y) / size) * size == y
  {
    assert (size - y) / size == size / size - y / size;
    assert (y / size) * size == y;
  }

  /**
   * For a minimap position inside the minimap, with non-zero world spans,
   * mapping to the world and back recovers it.
   */
  lemma MinimapRoundTrip(c: Calculator, m: Vector2)
    requires c.Valid()
    requires c.worldWidth != 0.0 && c.worldHeight != 0.0
    requires c.minimapWidth > 0.0 && c.minimapHeight > 0.0
    requires 0.0 <= m.x <= c.minimapWidth && 0.0 <= m.y <= c.minimapHeight
    ensures c.MinimapToWorld(m).Some? && c.WorldToMinimap(c.MinimapToWorld(m).value) == m
  {
    var w := c.MinimapToWorld(m).value;
    AxisRoundTripBack(m.x, c.worldMinX, c.worldWidth, c.invWorldWidth, c.minimapWidth);
    var t := c.minimapHeight - m.y;
    AxisRoundTripBack(t, c.worldMinY, c.worldHeight, c.invWorldHeight, c.minimapHeight);
    ComplementOverSize(m.y, c.minimapHeight);
  }
}
