// The height grid of LowPolyTerrainModel as values: its dimensions, the
// world <-> grid coordinate maps, the bilinear height query and the colour
// ramp. The class in terrain_model.dfy owns the mutable state and calls
// these functions.

module TerrainGrid {
  import opened Geometry

  /**
   * The fields `width`, `height`, `segmentsX`, `segmentsY` of the terrain.
   * The source does not validate them; with a zero extent or segment count
   * its arithmetic produces NaN or Infinity, which `Valid` excludes.
   */
  datatype Dims = Dims(width: real, height: real, segmentsX: int, segmentsY: int) {
    predicate Valid() {
      width > 0.0 && height > 0.0 && segmentsX >= 1 && segmentsY >= 1
    }

    function CellWidth(): real requires Valid() { width / segmentsX as real }
    function CellHeight(): real requires Valid() { height / segmentsY as real }
  }

  /** `heights[y][x]`, rows indexed by y. */
  type Heights = seq<seq<real>>

  /** The grid-shape invariant: `segmentsY+1` rows of `segmentsX+1` samples. */
  ghost predicate Shaped(d: Dims, hs: Heights) {
    |hs| == d.segmentsY + 1 &&
    forall y :: 0 <= y < |hs| ==> |hs[y]| == d.segmentsX + 1
  }

  /** `worldToGrid`: continuous grid coordinates, the world origin at the grid centre. */
  function WorldToGrid(d: Dims, wx: real, wy: real): Vec2
    requires d.Valid()
  {
    Vec2(((wx + d.width / 2.0) / d.width) * d.segmentsX as real,
         ((wy + d.height / 2.0) / d.height) * d.segmentsY as real)
  }

  /** `gridToWorld`: world coordinates of a (possibly fractional) grid position. */
  function GridToWorld(d: Dims, gx: real, gy: real): Vec2
    requires d.Valid()
  {
    Vec2((gx / d.segmentsX as real) * d.width - d.width / 2.0,
         (gy / d.segmentsY as real) * d.height - d.height / 2.0)
  }

  /**
   * The world rectangle, centred on the origin, covers the grid exactly:
   * its edges map to the first and last vertex lines, and back.
   */
  lemma GridEdges(d: Dims)
    requires d.Valid()
    ensures WorldToGrid(d, -d.width / 2.0, -d.height / 2.0) == Vec2(0.0, 0.0)
    ensures WorldToGrid(d, d.width / 2.0, d.height / 2.0) == Vec2(d.segmentsX as real, d.segmentsY as real)
    ensures GridToWorld(d, 0.0, 0.0) == Vec2(-d.width / 2.0, -d.height / 2.0)
    ensures GridToWorld(d, d.segmentsX as real, d.segmentsY as real) == Vec2(d.width / 2.0, d.height / 2.0)
  {
  }

  lemma ScaleBack(a: real, k: real)
    requires k != 0.0
    ensures (a * k) / k == a && (a / k) * k == a
  {
  }

  lemma {:induction false} WorldGridWorld(d: Dims, wx: real, wy: real)
    requires d.Valid()
    ensures var g := WorldToGrid(d, wx, wy); GridToWorld(d, g.x, g.y) == Vec2(wx, wy)
  {
    var sx, sy := d.segmentsX as real, d.segmentsY as real;
    ScaleBack((wx + d.width / 2.0) / d.width, sx);
    ScaleBack(wx + d.width / 2.0, d.width);
    ScaleBack((wy + d.height / 2.0) / d.height, sy);
    ScaleBack(wy + d.height / 2.0, d.height);
  }

  lemma {:induction false} GridWorldGrid(d: Dims, gx: real, gy: real)
    requires d.Valid()
    ensures var w := GridToWorld(d, gx, gy); WorldToGrid(d, w.x, w.y) == Vec2(gx, gy)
  {
    var sx, sy := d.segmentsX as real, d.segmentsY as real;
    ScaleBack(gx / sx, d.width);
    ScaleBack(gx, sx);
    ScaleBack(gy / sy, d.height);
    ScaleBack(gy, sy);
  }

  /** The world X of grid column `gx` steps by one cell width per column. */
  lemma GridToWorldX(d: Dims, gx: real)
    requires d.Valid()
    ensures GridToWorld(d, gx, 0.0).x == gx * d.CellWidth() - d.width / 2.0
  {
  }

  lemma GridToWorldY(d: Dims, gy: real)
    requires d.Valid()
    ensures GridToWorld(d, 0.0, gy).y == gy * d.CellHeight() - d.height / 2.0
  {
  }

  /** A sample of a possibly ragged grid, with the `?? fallback` of the source. */
  function SampleOr(hs: Heights, y: int, x: int, fallback: real): real {
    if 0 <= y < |hs| && 0 <= x < |hs[y]| then hs[y][x] else fallback
  }

  /** `a*(1-t) + b*t` */
  function Lerp(a: real, b: real, t: real): real { a * (1.0 - t) + b * t }

  /** `getHeightAt`: bilinear interpolation, 0 outside `[0,segmentsX) x [0,segmentsY)`. */
  function HeightAt(d: Dims, hs: Heights, wx: real, wy: real): real
    requires d.Valid() && Shaped(d, hs)
  {
    var g := WorldToGrid(d, wx, wy);
    var ix, iy := g.x.Floor, g.y.Floor;
    if ix < 0 || ix >= d.segmentsX || iy < 0 || iy >= d.segmentsY then 0.0
    else
      var fx, fy := g.x - ix as real, g.y - iy as real;
      var h00 := hs[iy][ix];
      var h10 := SampleOr(hs, iy, ix + 1, h00);
      var h01 := SampleOr(hs, iy + 1, ix, h00);
      var h11 := SampleOr(hs, iy + 1, ix + 1, h00);
      Lerp(Lerp(h00, h10, fx), Lerp(h01, h11, fx), fy)
  }

  /**
   * In range, the `??` fallbacks never fire: the query interpolates the
   * four stored samples around the cell `(floor gx, floor gy)`.
   */
  lemma HeightAtInterpolates(d: Dims, hs: Heights, wx: real, wy: real)
    requires d.Valid() && Shaped(d, hs)
    requires var g := WorldToGrid(d, wx, wy);
      0 <= g.x.Floor < d.segmentsX && 0 <= g.y.Floor < d.segmentsY
    ensures var g := WorldToGrid(d, wx, wy);
      var ix, iy := g.x.Floor, g.y.Floor;
      var fx, fy := g.x - ix as real, g.y - iy as real;
      0.0 <= fx < 1.0 && 0.0 <= fy < 1.0 &&
      HeightAt(d, hs, wx, wy) ==
        Lerp(Lerp(hs[iy][ix], hs[iy][ix + 1], fx), Lerp(hs[iy + 1][ix], hs[iy + 1][ix + 1], fx), fy)
  {
  }

  /** Outside the half-open world square the query returns exactly 0. */
  lemma HeightAtOutsideDomain(d: Dims, hs: Heights, wx: real, wy: real)
    requires d.Valid() && Shaped(d, hs)
    requires wx < -d.width / 2.0 || wx >= d.width / 2.0 || wy < -d.height / 2.0 || wy >= d.height / 2.0
    ensures HeightAt(d, hs, wx, wy) == 0.0
  {
    var g := WorldToGrid(d, wx, wy);
    var sx, sy := d.segmentsX as real, d.segmentsY as real;
    if wx < -d.width / 2.0 {
      NegativeScaled(wx + d.width / 2.0, d.width, sx);
      assert g.x.Floor < 0;
    } else if wx >= d.width / 2.0 {
      AtLeastOneScaled(wx + d.width / 2.0, d.width, sx);
      FloorAtLeast(g.x, d.segmentsX);
    } else if wy < -d.height / 2.0 {
      NegativeScaled(wy + d.height / 2.0, d.height, sy);
      assert g.y.Floor < 0;
    } else {
      AtLeastOneScaled(wy + d.height / 2.0, d.height, sy);
      FloorAtLeast(g.y, d.segmentsY);
    }
  }

  lemma FloorAtLeast(x: real, n: int)
    requires x >= n as real
    ensures x.Floor >= n
  {
  }

  lemma NegativeScaled(a: real, w: real, s: real)
    requires a < 0.0 && w > 0.0 && s > 0.0
    ensures (a / w) * s < 0.0
  {
  }

  lemma AtLeastOneScaled(a: real, w: real, s: real)
    requires a >= w && w > 0.0 && s > 0.0
    ensures (a / w) * s >= s
  {
    assert a / w >= 1.0;
  }

  /** At a grid vertex of the open cell range the query returns the stored height. */
  lemma HeightAtVertex(d: Dims, hs: Heights, i: int, j: int)
    requires d.Valid() && Shaped(d, hs)
    requires 0 <= i < d.segmentsX && 0 <= j < d.segmentsY
    ensures var w := GridToWorld(d, i as real, j as real); HeightAt(d, hs, w.x, w.y) == hs[j][i]
  {
    GridWorldGrid(d, i as real, j as real);
  }

  /**
   * On the last column or row (`i == segmentsX` or `j == segmentsY`) the
   * bound check at the start of the query rejects the vertex and the
   * query returns 0, whatever height is stored there.
   */
  lemma HeightAtFarEdge(d: Dims, hs: Heights, i: int, j: int)
    requires d.Valid() && Shaped(d, hs)
    requires 0 <= i <= d.segmentsX && 0 <= j <= d.segmentsY
    requires i == d.segmentsX || j == d.segmentsY
    ensures var w := GridToWorld(d, i as real, j as real); HeightAt(d, hs, w.x, w.y) == 0.0
  {
    GridWorldGrid(d, i as real, j as real);
  }

  lemma LerpBetween(a: real, b: real, t: real)
    requires 0.0 <= t <= 1.0
    ensures Min(a, b) <= Lerp(a, b, t) <= Max(a, b)
  {
    LerpAsStep(a, b, t);
    ScaledByFraction(b - a, t);
  }

  lemma LerpAsStep(a: real, b: real, t: real)
    ensures Lerp(a, b, t) == a + (b - a) * t
  {
  }

  /** `c*t` for a fraction t lies between 0 and c. */
  lemma ScaledByFraction(c: real, t: real)
    requires 0.0 <= t <= 1.0
    ensures Min(0.0, c) <= c * t <= Max(0.0, c)
  {
    assert c - c * t == c * (1.0 - t);
  }

  function Min4(a: real, b: real, c: real, e: real): real { Min(Min(a, b), Min(c, e)) }
  function Max4(a: real, b: real, c: real, e: real): real { Max(Max(a, b), Max(c, e)) }

  /** In range, the query lies between the smallest and the largest of the four samples. */
  lemma HeightAtWithinSamples(d: Dims, hs: Heights, wx: real, wy: real)
    requires d.Valid() && Shaped(d, hs)
    requires var g := WorldToGrid(d, wx, wy);
      0 <= g.x.Floor < d.segmentsX && 0 <= g.y.Floor < d.segmentsY
    ensures var g := WorldToGrid(d, wx, wy);
      var ix, iy := g.x.Floor, g.y.Floor;
      var lo := Min4(hs[iy][ix], hs[iy][ix + 1], hs[iy + 1][ix], hs[iy + 1][ix + 1]);
      var hi := Max4(hs[iy][ix], hs[iy][ix + 1], hs[iy + 1][ix], hs[iy + 1][ix + 1]);
      lo <= HeightAt(d, hs, wx, wy) <= hi
  {
    var g := WorldToGrid(d, wx, wy);
    var ix, iy := g.x.Floor, g.y.Floor;
    var fx, fy := g.x - ix as real, g.y - iy as real;
    HeightAtInterpolates(d, hs, wx, wy);
    var h00, h10, h01, h11 := hs[iy][ix], hs[iy][ix + 1], hs[iy + 1][ix], hs[iy + 1][ix + 1];
    LerpBetween(h00, h10, fx);
    LerpBetween(h01, h11, fx);
    LerpBetween(Lerp(h00, h10, fx), Lerp(h01, h11, fx), fy);
  }

  // ---------------------------------------------------------------------
  // Colour ramp

  /** The five palette stops, teal to tan, all opaque. */
  const Stops: seq<Color> := [
    Color(0.2, 0.6, 0.5, 1.0),
    Color(0.3, 0.75, 0.4, 1.0),
    Color(0.5, 0.85, 0.35, 1.0),
    Color(0.7, 0.9, 0.4, 1.0),
    Color(0.9, 0.85, 0.5, 1.0)
  ]

  function Blend(c1: Color, c2: Color, frac: real): Color {
    Color(Lerp(c1.r, c2.r, frac), Lerp(c1.g, c2.g, frac), Lerp(c1.b, c2.b, frac), 1.0)
  }

  /** `getColorForHeight`, with the terrain's `maxHeight`. */
  function ColorForHeight(maxHeight: real, h: real): Color
    requires maxHeight > 0.0
  {
    var t := Min(1.0, Max(0.0, h / maxHeight));
    var scale := t * (|Stops| - 1) as real;
    var idx := scale.Floor;
    var frac := scale - idx as real;
    if idx >= |Stops| - 1 then Stops[|Stops| - 1]
    else Blend(Stops[idx], Stops[idx + 1], frac)
  }

  /** Every colour of the ramp is opaque. */
  lemma ColorAlphaOne(maxHeight: real, h: real)
    requires maxHeight > 0.0
    ensures ColorForHeight(maxHeight, h).a == 1.0
  {
  }

  /** Heights at or below 0 give the first stop. */
  lemma ColorAtOrBelowZero(maxHeight: real, h: real)
    requires maxHeight > 0.0 && h <= 0.0
    ensures ColorForHeight(maxHeight, h) == Stops[0]
  {
    assert h / maxHeight <= 0.0;
  }

  /** Heights at or above `maxHeight` give the last stop, unmodified. */
  lemma ColorAtOrAboveMax(maxHeight: real, h: real)
    requires maxHeight > 0.0 && h >= maxHeight
    ensures ColorForHeight(maxHeight, h) == Stops[4]
  {
    assert h / maxHeight >= 1.0;
  }

  /** The height `k/4 * maxHeight` lands exactly on stop k: no blend, no jump. */
  lemma ColorAtStop(maxHeight: real, k: int)
    requires maxHeight > 0.0 && 0 <= k <= 4
    ensures ColorForHeight(maxHeight, maxHeight * k as real / 4.0) == Stops[k]
  {
    var h := maxHeight * k as real / 4.0;
    assert h / maxHeight == k as real / 4.0;
  }

  /**
   * Strictly between 0 and `maxHeight` the colour is the linear blend of
   * the two stops that bracket `4 * h / maxHeight`, at its fractional part.
   */
  lemma ColorBlendsBracketingStops(maxHeight: real, h: real)
    requires maxHeight > 0.0 && 0.0 < h < maxHeight
    ensures var s := 4.0 * h / maxHeight;
      var k := s.Floor;
      0 <= k < 4 &&
      ColorForHeight(maxHeight, h) == Blend(Stops[k], Stops[k + 1], s - k as real)
  {
    DivBelowOne(h, maxHeight);
    assert (h / maxHeight) * 4.0 == 4.0 * h / maxHeight;
  }

  lemma DivBelowOne(h: real, m: real)
    requires 0.0 < h < m
    ensures 0.0 < h / m < 1.0
  {
    var q := h / m;
    assert q * m == h;
    assert (1.0 - q) * m == m - h;
    PositiveFactor(1.0 - q, m);
    PositiveFactor(q, m);
  }

  /** Each blended channel lies between the bracketing stops' channels. */
  lemma BlendBetween(c1: Color, c2: Color, frac: real)
    requires 0.0 <= frac <= 1.0
    ensures var c := Blend(c1, c2, frac);
      Min(c1.r, c2.r) <= c.r <= Max(c1.r, c2.r) &&
      Min(c1.g, c2.g) <= c.g <= Max(c1.g, c2.g) &&
      Min(c1.b, c2.b) <= c.b <= Max(c1.b, c2.b) && c.a == 1.0
  {
    LerpBetween(c1.r, c2.r, frac);
    LerpBetween(c1.g, c2.g, frac);
    LerpBetween(c1.b, c2.b, frac);
  }
}
