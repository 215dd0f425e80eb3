// The sculpting brush of LowPolyTerrainModel: the two falloff callbacks
// (`baseHeightChange`, `flattenHeightChange`) and, as values, what one
// `getCells` call does to the height grid and which cells it reports.

module TerrainBrush {
  import opened Wrappers
  import opened Geometry
  import opened TerrainGrid

  // ---------------------------------------------------------------------
  // Falloff callbacks

  /**
   * `baseHeightChange(vec, [radius, strength])`: `strength * (1 - d/r)^2`
   * with d the XY length of `vec`. There is no clamp of the falloff at 0.
   */
  function BaseHeightChange(sqrt: real -> real, vec: Vec3, radius: real, strength: real): real
    requires radius != 0.0
  {
    var dist := LengthXY(sqrt, vec);
    var falloff := 1.0 - dist / radius;
    strength * (falloff * falloff)
  }

  /** At the brush centre the change is the full strength. */
  lemma BaseAtCentre(sqrt: real -> real, vec: Vec3, radius: real, strength: real)
    requires IsSqrt(sqrt) && radius != 0.0 && vec.x == 0.0 && vec.y == 0.0
    ensures BaseHeightChange(sqrt, vec, radius, strength) == strength
  {
    SqrtUnique(sqrt, 0.0, 0.0);
  }

  /** On the rim of the brush the change is zero. */
  lemma BaseAtRim(sqrt: real -> real, vec: Vec3, radius: real, strength: real)
    requires radius != 0.0 && LengthXY(sqrt, vec) == radius
    ensures BaseHeightChange(sqrt, vec, radius, strength) == 0.0
  {
  }

  /** Inside the brush the change has the sign of `strength` and never exceeds it. */
  lemma BaseWithinStrength(sqrt: real -> real, vec: Vec3, radius: real, strength: real)
    requires IsSqrt(sqrt) && radius > 0.0 && LengthXY(sqrt, vec) <= radius
    ensures var r := BaseHeightChange(sqrt, vec, radius, strength);
      (strength >= 0.0 ==> 0.0 <= r <= strength) && (strength <= 0.0 ==> strength <= r <= 0.0)
  {
    var dist := LengthXY(sqrt, vec);
    SqrtOfSquare(sqrt, vec.SquaredLengthXY());
    var falloff := 1.0 - dist / radius;
    FractionBounds(dist, radius);
    SquareOfFraction(falloff);
    ScaledByFraction(strength, falloff * falloff);
  }

  lemma FractionBounds(a: real, b: real)
    requires 0.0 <= a <= b && b > 0.0
    ensures 0.0 <= a / b <= 1.0
  {
    var q := a / b;
    assert q * b == a;
    assert (1.0 - q) * b == b - a;
    NonnegativeFactor(q, b);
    NonnegativeFactor(1.0 - q, b);
  }

  lemma SquareOfFraction(f: real)
    requires 0.0 <= f <= 1.0
    ensures 0.0 <= f * f <= 1.0
  {
    ScaledByFraction(f, f);
  }

  /**
   * The falloff is monotone: a vertex nearer the centre changes at least as
   * much as one further out.
   */
  lemma BaseMonotone(sqrt: real -> real, near: Vec3, far: Vec3, radius: real, strength: real)
    requires IsSqrt(sqrt) && radius > 0.0
    requires LengthXY(sqrt, near) <= LengthXY(sqrt, far) <= radius
    ensures var rn, rf := BaseHeightChange(sqrt, near, radius, strength), BaseHeightChange(sqrt, far, radius, strength);
      (strength >= 0.0 ==> rf <= rn) && (strength <= 0.0 ==> rn <= rf)
  {
    var dn, df := LengthXY(sqrt, near), LengthXY(sqrt, far);
    SqrtOfSquare(sqrt, near.SquaredLengthXY());
    FractionBounds(dn, radius);
    FractionBounds(df, radius);
    DivideMonotone(dn, df, radius);
    var fn, ff := 1.0 - dn / radius, 1.0 - df / radius;
    SquareMonotone(ff, fn);
    var gap := fn * fn - ff * ff;
    assert strength * (fn * fn) - strength * (ff * ff) == strength * gap;
    if strength >= 0.0 {
      ProductNonnegative(strength, gap);
    } else {
      ProductNonnegative(-strength, gap);
    }
  }

  lemma DivideMonotone(a: real, b: real, c: real)
    requires a <= b && c > 0.0
    ensures a / c <= b / c
  {
    assert b / c - a / c == (b - a) / c;
  }

  lemma SquareMonotone(a: real, b: real)
    requires 0.0 <= a <= b
    ensures a * a <= b * b
  {
    assert b * b - a * a == (b - a) * (b + a);
    ProductNonnegative(b - a, b + a);
  }

  lemma ProductNonnegative(a: real, b: real)
    requires a >= 0.0 && b >= 0.0
    ensures a * b >= 0.0
  {
  }

  /**
   * There is no clamp: past the rim the formula grows again, so only the
   * `dist <= radius` test of the caller keeps far vertices unchanged.
   */
  lemma BaseUnclampedBeyondRim(sqrt: real -> real, vec: Vec3, radius: real, strength: real)
    requires radius > 0.0 && strength > 0.0 && LengthXY(sqrt, vec) > radius
    ensures BaseHeightChange(sqrt, vec, radius, strength) > 0.0
  {
    var dist := LengthXY(sqrt, vec);
    assert dist / radius > 1.0 by {
      assert (dist / radius) * radius == dist;
      PositiveFactor(dist / radius - 1.0, radius);
    }
    var falloff := 1.0 - dist / radius;
    assert falloff * falloff > 0.0 by { PositiveFactor(-falloff, -falloff); }
  }

  /** The signed distance `dist = n.dot(vec)` of the sample from the flatten plane. */
  function PlaneOffset(sqrt: real -> real, vec: Vec3, n: Vec3): real
    requires IsSqrt(sqrt) && n.SquaredLength() > 0.0
  {
    Normalized(sqrt, n).Dot(vec)
  }

  /**
   * `flattenHeightChange(vec, [normal, radius, strength])`: 0 without a
   * normal; otherwise a step towards the plane through the brush point.
   */
  function FlattenHeightChange(sqrt: real -> real, vec: Vec3, normal: Option<Vec3>, radius: real, strength: real): real
    requires IsSqrt(sqrt) && radius != 0.0
    requires normal.Some? ==> normal.value.SquaredLength() > 0.0
  {
    if normal.None? then 0.0
    else FlattenStep(PlaneOffset(sqrt, vec, normal.value), LengthXY(sqrt, vec), radius, strength)
  }

  /**
   * The callbacks as `getCells` receives them from `terraform` and
   * `flatten`, with their extra arguments bound.
   */
  function BaseUpdate(sqrt: real -> real, radius: real, strength: real): Vec3 -> real
    requires radius != 0.0
  {
    vec => BaseHeightChange(sqrt, vec, radius, strength)
  }

  function FlattenUpdate(sqrt: real -> real, normal: Option<Vec3>, radius: real, strength: real): Vec3 -> real
    requires IsSqrt(sqrt) && radius != 0.0
    requires normal.Some? ==> normal.value.SquaredLength() > 0.0
  {
    vec => FlattenHeightChange(sqrt, vec, normal, radius, strength)
  }

  /** The step for a sample at plane offset `dist` and XY distance `pointDist` from the brush point. */
  function FlattenStep(dist: real, pointDist: real, radius: real, strength: real): real
    requires radius != 0.0
  {
    var falloff := 1.0 - pointDist / radius;
    var squared := falloff * falloff;
    ClampedStep(dist, squared * strength)
  }

  /**
   * The falloff-weighted push `squared * strength`, clamped to at most the
   * full offset `dist` and at least a tenth of it, in the direction of `dist`.
   */
  function ClampedStep(dist: real, push: real): real {
    if push > Abs(dist) then dist
    else if push < Abs(dist) * 0.1 then dist * 0.1
    else push * Sign(dist)
  }

  /** Without a normal, flattening is a no-op. */
  lemma FlattenWithoutNormal(sqrt: real -> real, vec: Vec3, radius: real, strength: real)
    requires IsSqrt(sqrt) && radius != 0.0
    ensures FlattenHeightChange(sqrt, vec, None, radius, strength) == 0.0
  {
  }

  /**
   * The step has the sign of the offset, never overshoots the plane and
   * never stalls: `0.1*|dist| <= |step| <= |dist|`, whatever the push.
   */
  lemma ClampedStepBounded(dist: real, push: real)
    ensures var step := ClampedStep(dist, push);
      Abs(dist) * 0.1 <= Abs(step) <= Abs(dist) &&
      (dist > 0.0 ==> step > 0.0) && (dist < 0.0 ==> step < 0.0) && (dist == 0.0 ==> step == 0.0)
  {
  }

  lemma FlattenStepBounded(dist: real, pointDist: real, radius: real, strength: real)
    requires radius != 0.0
    ensures var step := FlattenStep(dist, pointDist, radius, strength);
      Abs(dist) * 0.1 <= Abs(step) <= Abs(dist) &&
      (dist > 0.0 ==> step > 0.0) && (dist < 0.0 ==> step < 0.0) && (dist == 0.0 ==> step == 0.0)
  {
    var falloff := 1.0 - pointDist / radius;
    ClampedStepBounded(dist, falloff * falloff * strength);
  }

  /**
   * Repeated flattening converges: with a normal that points up
   * (`nz > 0` after normalising), lowering the offset vector by the step
   * (the sample rises by it) moves the offset towards the plane without
   * crossing it, and shrinks it by at least `0.1*nz` of itself.
   */
  lemma FlattenStepConverges(sqrt: real -> real, vec: Vec3, n: Vec3, radius: real, strength: real)
    requires IsSqrt(sqrt) && radius != 0.0 && n.SquaredLength() > 0.0
    requires Normalized(sqrt, n).z > 0.0
    ensures var u := Normalized(sqrt, n);
      var dist := PlaneOffset(sqrt, vec, n);
      var step := FlattenHeightChange(sqrt, vec, Some(n), radius, strength);
      var after := PlaneOffset(sqrt, vec.Minus(Vec3(0.0, 0.0, step)), n);
      ShrinksTowardsPlane(dist, after, u.z)
  {
    var u := Normalized(sqrt, n);
    UnitComponent(u);
    ConvergesAlong(u, vec, LengthXY(sqrt, vec), radius, strength);
  }

  /** `FlattenStepConverges` for the unit normal `u` itself. */
  lemma ConvergesAlong(u: Vec3, vec: Vec3, pointDist: real, radius: real, strength: real)
    requires radius != 0.0 && 0.0 < u.z <= 1.0
    ensures var dist := u.Dot(vec);
      var step := FlattenStep(dist, pointDist, radius, strength);
      ShrinksTowardsPlane(dist, u.Dot(vec.Minus(Vec3(0.0, 0.0, step))), u.z)
  {
    var dist := u.Dot(vec);
    var step := FlattenStep(dist, pointDist, radius, strength);
    OffsetAfterRaise(u, vec, step);
    FlattenStepBounded(dist, pointDist, radius, strength);
    ShrinkTowardsPlane(dist, step, u.z, u.Dot(vec.Minus(Vec3(0.0, 0.0, step))));
  }

  /** Lowering the vector by `step` moves its plane offset by `u.z * step`. */
  lemma OffsetAfterRaise(u: Vec3, vec: Vec3, step: real)
    ensures u.Dot(vec.Minus(Vec3(0.0, 0.0, step))) == u.Dot(vec) - u.z * step
  {
  }

  lemma UnitComponent(u: Vec3)
    requires u.SquaredLength() == 1.0 && u.z > 0.0
    ensures u.z <= 1.0
  {
    assert (1.0 - u.z) * (1.0 + u.z) == 1.0 - u.z * u.z;
    NonnegativeFactor(1.0 - u.z, 1.0 + u.z);
  }

  /**
   * The offset `after` is on the same side of the plane as `dist` (or on
   * it) and smaller by at least `0.1 * c` of `dist`.
   */
  predicate ShrinksTowardsPlane(dist: real, after: real, c: real) {
    after * dist >= 0.0 && Abs(after) <= Abs(dist) - 0.1 * c * Abs(dist)
  }

  lemma ShrinkTowardsPlane(dist: real, step: real, c: real, after: real)
    requires 0.0 < c <= 1.0 && after == dist - c * step
    requires Abs(dist) * 0.1 <= Abs(step) <= Abs(dist)
    requires (dist > 0.0 ==> step > 0.0) && (dist < 0.0 ==> step < 0.0) && (dist == 0.0 ==> step == 0.0)
    ensures ShrinksTowardsPlane(dist, after, c)
  {
    if dist > 0.0 {
      ShrinkFromAbove(dist, step, c, after);
    } else if dist < 0.0 {
      ShrinkFromAbove(-dist, -step, c, -after);
      assert (-after) * (-dist) == after * dist;
    }
  }

  /** `ShrinkTowardsPlane` for a positive offset. */
  lemma ShrinkFromAbove(dist: real, step: real, c: real, after: real)
    requires 0.0 < c <= 1.0 && after == dist - c * step
    requires 0.0 < dist && dist * 0.1 <= step <= dist
    ensures 0.0 <= after && after * dist >= 0.0 && after <= dist - 0.1 * c * dist
  {
    ScaledByFraction(step, c);
    assert c * step - 0.1 * c * dist == c * (step - 0.1 * dist);
    ProductNonnegative(c, step - 0.1 * dist);
    ProductNonnegative(after, dist);
  }

  // ---------------------------------------------------------------------
  // One brush application (`getCells`) as a value

  /** The XY offset from the world position of vertex `(gx, gy)` to the brush point. */
  function PlanarOffset(d: Dims, point: Vec3, gx: int, gy: int): Vec3
    requires d.Valid()
  {
    var w := GridToWorld(d, gx as real, gy as real);
    Vec3(point.x - w.x, point.y - w.y, 0.0)
  }

  /** `vec = point - (worldPos.x, worldPos.y, heights[gy][gx])` for a vertex of the grid. */
  function VertexOffset(d: Dims, hs: Heights, point: Vec3, gx: int, gy: int): Vec3
    requires d.Valid() && Shaped(d, hs) && 0 <= gx <= d.segmentsX && 0 <= gy <= d.segmentsY
  {
    var w := GridToWorld(d, gx as real, gy as real);
    point.Minus(Vec3(w.x, w.y, hs[gy][gx]))
  }

  /** Vertex `(gx, gy)` is a grid vertex within XY distance `radius` of the point. */
  predicate Touched(sqrt: real -> real, d: Dims, point: Vec3, radius: real, gx: int, gy: int)
    requires d.Valid()
  {
    0 <= gx <= d.segmentsX && 0 <= gy <= d.segmentsY &&
    LengthXY(sqrt, PlanarOffset(d, point, gx, gy)) <= radius
  }

  /** The sample at `(gx, gy)` after the brush: changed once, by `update(vec)`, iff touched. */
  function BrushedSample(sqrt: real -> real, d: Dims, hs: Heights, point: Vec3, radius: real,
                         update: Vec3 -> real, gx: int, gy: int): real
    requires d.Valid() && Shaped(d, hs) && 0 <= gx <= d.segmentsX && 0 <= gy <= d.segmentsY
  {
    if Touched(sqrt, d, point, radius, gx, gy)
    then hs[gy][gx] + update(VertexOffset(d, hs, point, gx, gy))
    else hs[gy][gx]
  }

  /** The whole grid after one brush application. */
  function BrushedHeights(sqrt: real -> real, d: Dims, hs: Heights, point: Vec3, radius: real,
                          update: Vec3 -> real): (r: Heights)
    requires d.Valid() && Shaped(d, hs)
    ensures Shaped(d, r)
    ensures forall y, x :: 0 <= y <= d.segmentsY && 0 <= x <= d.segmentsX ==>
      r[y][x] == BrushedSample(sqrt, d, hs, point, radius, update, x, y)
  {
    seq(d.segmentsY + 1, y requires 0 <= y <= d.segmentsY =>
      seq(d.segmentsX + 1, x requires 0 <= x <= d.segmentsX =>
        BrushedSample(sqrt, d, hs, point, radius, update, x, y)))
  }

  /**
   * The cells `getCells` reports: every quad of the grid with a touched
   * corner. A touched vertex `(gx, gy)` adds the up to four quads
   * `(gx-1, gy-1)`, `(gx, gy-1)`, `(gx-1, gy)`, `(gx, gy)` that lie in
   * `[0, segmentsX) x [0, segmentsY)`; seen from a quad these are its four
   * corners.
   */
  function BrushedCells(sqrt: real -> real, d: Dims, point: Vec3, radius: real): (cells: set<(int, int)>)
    requires d.Valid()
    ensures forall c :: c in cells ==> 0 <= c.0 < d.segmentsX && 0 <= c.1 < d.segmentsY
  {
    set cx, cy | 0 <= cx < d.segmentsX && 0 <= cy < d.segmentsY &&
      (Touched(sqrt, d, point, radius, cx, cy) || Touched(sqrt, d, point, radius, cx + 1, cy) ||
       Touched(sqrt, d, point, radius, cx, cy + 1) || Touched(sqrt, d, point, radius, cx + 1, cy + 1))
      :: (cx, cy)
  }

  /** The clamped grid-space bounding box that `getCells` scans. */
  datatype Box = Box(minX: int, maxX: int, minY: int, maxY: int)

  function BrushBox(d: Dims, point: Vec3, radius: real): Box
    requires d.Valid()
  {
    var center := WorldToGrid(d, point.x, point.y);
    var gridRadiusX := radius / d.CellWidth();
    var gridRadiusY := radius / d.CellHeight();
    Box(LowIndex(center.x - gridRadiusX), HighIndex(center.x + gridRadiusX, d.segmentsX),
        LowIndex(center.y - gridRadiusY), HighIndex(center.y + gridRadiusY, d.segmentsY))
  }

  /** `Math.max(0, Math.floor(v))` */
  function LowIndex(v: real): int { if v.Floor > 0 then v.Floor else 0 }

  /** `Math.min(segments, Math.ceil(v))` */
  function HighIndex(v: real, segments: int): int { if Ceil(v) < segments then Ceil(v) else segments }

  /**
   * The bounding box never cuts the brush disk: every grid vertex within
   * `radius` of the point lies inside the box, so scanning the box finds
   * every vertex the brush should change.
   */
  lemma TouchedInBox(sqrt: real -> real, d: Dims, point: Vec3, radius: real, gx: int, gy: int)
    requires IsSqrt(sqrt) && d.Valid() && Touched(sqrt, d, point, radius, gx, gy)
    ensures var b := BrushBox(d, point, radius); b.minX <= gx <= b.maxX && b.minY <= gy <= b.maxY
  {
    TouchedAxes(sqrt, d, point, radius, gx, gy);
    GridWorldGrid(d, gx as real, gy as real);
    ColumnInBox(d, point, radius, gx, gy);
    RowInBox(d, point, radius, gx, gy);
  }

  lemma ColumnInBox(d: Dims, point: Vec3, radius: real, gx: int, gy: int)
    requires d.Valid() && 0 <= gx <= d.segmentsX
    requires var w := GridToWorld(d, gx as real, gy as real);
      Abs(point.x - w.x) <= radius && WorldToGrid(d, w.x, w.y).x == gx as real
    ensures var b := BrushBox(d, point, radius); b.minX <= gx <= b.maxX
  {
    var w := GridToWorld(d, gx as real, gy as real);
    AxisWithinBox(point.x, w.x, d.width, d.segmentsX as real, radius, gx as real);
    IndexWithinClamps(WorldToGrid(d, point.x, point.y).x, radius / d.CellWidth(), gx, d.segmentsX);
  }

  lemma RowInBox(d: Dims, point: Vec3, radius: real, gx: int, gy: int)
    requires d.Valid() && 0 <= gy <= d.segmentsY
    requires var w := GridToWorld(d, gx as real, gy as real);
      Abs(point.y - w.y) <= radius && WorldToGrid(d, w.x, w.y).y == gy as real
    ensures var b := BrushBox(d, point, radius); b.minY <= gy <= b.maxY
  {
    var w := GridToWorld(d, gx as real, gy as real);
    AxisWithinBox(point.y, w.y, d.height, d.segmentsY as real, radius, gy as real);
    IndexWithinClamps(WorldToGrid(d, point.x, point.y).y, radius / d.CellHeight(), gy, d.segmentsY);
  }

  /** A touched vertex is within `radius` of the point along each axis. */
  lemma TouchedAxes(sqrt: real -> real, d: Dims, point: Vec3, radius: real, gx: int, gy: int)
    requires IsSqrt(sqrt) && d.Valid() && Touched(sqrt, d, point, radius, gx, gy)
    ensures var w := GridToWorld(d, gx as real, gy as real);
      Abs(point.x - w.x) <= radius && Abs(point.y - w.y) <= radius
  {
    CoordinateBelowLengthXY(sqrt, PlanarOffset(d, point, gx, gy));
  }

  lemma IndexWithinClamps(c: real, gr: real, g: int, segments: int)
    requires 0 <= g <= segments && c - gr <= g as real <= c + gr
    ensures LowIndex(c - gr) <= g <= HighIndex(c + gr, segments)
  {
  }

  /**
   * One axis of `TouchedInBox`: if `|p - w| <= r` then the grid coordinate
   * `g` of `w` is within `r / cell` of the grid coordinate of `p`.
   */
  lemma AxisWithinBox(p: real, w: real, size: real, segs: real, r: real, g: real)
    requires size > 0.0 && segs > 0.0 && Abs(p - w) <= r
    requires ((w + size / 2.0) / size) * segs == g
    ensures var c := ((p + size / 2.0) / size) * segs;
      c - r / (size / segs) <= g <= c + r / (size / segs)
  {
    var c := ((p + size / 2.0) / size) * segs;
    var k := segs / size;
    assert k > 0.0;
    assert c == (p + size / 2.0) * k;
    assert g == (w + size / 2.0) * k;
    assert c - g == (p - w) * k;
    assert r / (size / segs) == r * k;
    ScaledAbs(p - w, r, k);
  }

  lemma ScaledAbs(a: real, r: real, k: real)
    requires Abs(a) <= r && k > 0.0
    ensures -(r * k) <= a * k <= r * k
  {
    if a >= 0.0 {
      assert r * k - a * k == (r - a) * k;
      ProductNonnegative(r - a, k);
      ProductNonnegative(a, k);
    } else {
      assert r * k + a * k == (r + a) * k;
      ProductNonnegative(r + a, k);
      ProductNonnegative(-a, k);
    }
  }

  /**
   * A brush whose disk lies wholly outside the grid's world rectangle
   * changes no height and reports no cell.
   */
  lemma BrushOutsideGrid(sqrt: real -> real, d: Dims, hs: Heights, point: Vec3, radius: real, update: Vec3 -> real)
    requires IsSqrt(sqrt) && d.Valid() && Shaped(d, hs)
    requires point.x + radius < -d.width / 2.0 || point.x - radius > d.width / 2.0 ||
             point.y + radius < -d.height / 2.0 || point.y - radius > d.height / 2.0
    ensures BrushedHeights(sqrt, d, hs, point, radius, update) == hs
    ensures BrushedCells(sqrt, d, point, radius) == {}
  {
    forall gx, gy | 0 <= gx <= d.segmentsX && 0 <= gy <= d.segmentsY
      ensures !Touched(sqrt, d, point, radius, gx, gy)
    {
      var off := PlanarOffset(d, point, gx, gy);
      CoordinateBelowLengthXY(sqrt, off);
      var w := GridToWorld(d, gx as real, gy as real);
      WorldInsideRectangle(d, gx, gy);
    }
    var r := BrushedHeights(sqrt, d, hs, point, radius, update);
    assert |r| == |hs|;
    forall y | 0 <= y < |hs| ensures r[y] == hs[y] {
      assert |r[y]| == |hs[y]|;
    }
  }

  /** Every grid vertex lies in the closed world rectangle. */
  lemma WorldInsideRectangle(d: Dims, gx: int, gy: int)
    requires d.Valid() && 0 <= gx <= d.segmentsX && 0 <= gy <= d.segmentsY
    ensures var w := GridToWorld(d, gx as real, gy as real);
      -d.width / 2.0 <= w.x <= d.width / 2.0 && -d.height / 2.0 <= w.y <= d.height / 2.0
  {
    FractionBounds(gx as real, d.segmentsX as real);
    FractionBounds(gy as real, d.segmentsY as real);
    ScaledByFraction(d.width, gx as real / d.segmentsX as real);
    ScaledByFraction(d.height, gy as real / d.segmentsY as real);
  }
}
