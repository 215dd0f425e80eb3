// LowPolyTerrainModel: the terrain's height grid and the low-poly mesh built
// from it, as a class whose methods update the grid and the vertex data in
// place. The functions these methods are proved against live in
// TerrainGrid, TerrainBrush and TerrainMesh.

module TerrainModel {
  import opened Wrappers
  import opened Geometry
  import opened TerrainGrid
  import opened TerrainBrush
  import opened TerrainMesh

  // ---------------------------------------------------------------------
  // Initial and generated heights

  /** The grid `initHeights` builds: every sample 0. */
  function FlatHeights(d: Dims): (hs: Heights)
    requires d.Valid()
    ensures Shaped(d, hs)
  {
    seq(d.segmentsY + 1, _ => seq(d.segmentsX + 1, _ => 0.0))
  }

  /** A flat terrain answers 0 to every height query. */
  lemma FlatTerrainIsLevel(d: Dims, wx: real, wy: real)
    requires d.Valid()
    ensures HeightAt(d, FlatHeights(d), wx, wy) == 0.0
  {
    var g := WorldToGrid(d, wx, wy);
    if 0 <= g.x.Floor < d.segmentsX && 0 <= g.y.Floor < d.segmentsY {
      HeightAtWithinSamples(d, FlatHeights(d), wx, wy);
    }
  }

  /**
   * The sample `generateHills` writes at grid vertex `(x, y)`: simplex noise
   * (a parameter, with values in [-1, 1]) mapped to [0, 1] and scaled by
   * `amplitude`. The noise is sampled at `(x / segmentsX) * width`, a
   * position measured from the grid's corner, not its centre.
   */
  function HillSample(d: Dims, noise: (real, real) -> real, noiseScale: real, amplitude: real, x: int, y: int): real
    requires d.Valid()
  {
    var worldX := (x as real / d.segmentsX as real) * d.width;
    var worldY := (y as real / d.segmentsY as real) * d.height;
    (noise(worldX * noiseScale, worldY * noiseScale) + 1.0) * 0.5 * amplitude
  }

  function HillHeights(d: Dims, noise: (real, real) -> real, noiseScale: real, amplitude: real): (hs: Heights)
    requires d.Valid()
    ensures Shaped(d, hs)
  {
    seq(d.segmentsY + 1, y requires 0 <= y <= d.segmentsY =>
      seq(d.segmentsX + 1, x requires 0 <= x <= d.segmentsX => HillSample(d, noise, noiseScale, amplitude, x, y)))
  }

  /** Simplex noise stays within [-1, 1]. */
  ghost predicate NoiseInRange(noise: (real, real) -> real) {
    forall a, b :: -1.0 <= noise(a, b) <= 1.0
  }

  /** Every generated sample lies in `[0, amplitude]`. */
  lemma HillSampleWithinAmplitude(d: Dims, noise: (real, real) -> real, noiseScale: real, amplitude: real, x: int, y: int)
    requires d.Valid() && NoiseInRange(noise) && amplitude >= 0.0
    ensures 0.0 <= HillSample(d, noise, noiseScale, amplitude, x, y) <= amplitude
  {
    var worldX := (x as real / d.segmentsX as real) * d.width;
    var worldY := (y as real / d.segmentsY as real) * d.height;
    var n := noise(worldX * noiseScale, worldY * noiseScale);
    ScaledByFraction(amplitude, (n + 1.0) * 0.5);
  }

  /** So does the height query anywhere on generated terrain. */
  lemma HillsWithinAmplitude(d: Dims, noise: (real, real) -> real, noiseScale: real, amplitude: real, wx: real, wy: real)
    requires d.Valid() && NoiseInRange(noise) && amplitude >= 0.0
    ensures 0.0 <= HeightAt(d, HillHeights(d, noise, noiseScale, amplitude), wx, wy) <= amplitude
  {
    var hs := HillHeights(d, noise, noiseScale, amplitude);
    var g := WorldToGrid(d, wx, wy);
    if 0 <= g.x.Floor < d.segmentsX && 0 <= g.y.Floor < d.segmentsY {
      var ix, iy := g.x.Floor, g.y.Floor;
      HillSampleWithinAmplitude(d, noise, noiseScale, amplitude, ix, iy);
      HillSampleWithinAmplitude(d, noise, noiseScale, amplitude, ix + 1, iy);
      HillSampleWithinAmplitude(d, noise, noiseScale, amplitude, ix, iy + 1);
      HillSampleWithinAmplitude(d, noise, noiseScale, amplitude, ix + 1, iy + 1);
      HeightAtWithinSamples(d, hs, wx, wy);
    }
  }

  /**
   * The loop body of `generateGeometry` for cell `(x, y)`: its six vertices
   * and two triangles, numbered from `firstIndex`.
   */
  method CellGeometry(sqrt: real -> real, d: Dims, heights: Heights, maxHeight: real, x: int, y: int,
                      flip: bool, firstIndex: int) returns (verts: seq<Vertex>, tris: seq<Triangle>)
    requires IsSqrt(sqrt) && d.Valid() && Shaped(d, heights) && maxHeight > 0.0
    requires 0 <= x < d.segmentsX && 0 <= y < d.segmentsY
    ensures verts == CellVertices(sqrt, d, heights, maxHeight, x, y, flip)
    ensures tris == [Triangle(firstIndex, firstIndex + 1, firstIndex + 2),
                     Triangle(firstIndex + 3, firstIndex + 4, firstIndex + 5)]
  {
    var cellWidth := d.width / d.segmentsX as real;
    var cellHeight := d.height / d.segmentsY as real;
    var halfWidth := d.width / 2.0;
    var halfHeight := d.height / 2.0;
    verts := [];
    tris := [];
    var vertexIndex := firstIndex;
    var x0 := x as real * cellWidth - halfWidth;
    var x1 := (x + 1) as real * cellWidth - halfWidth;
    var y0 := y as real * cellHeight - halfHeight;
    var y1 := (y + 1) as real * cellHeight - halfHeight;
    var h1, h2, h3, h4 := heights[y][x], heights[y][x + 1], heights[y + 1][x], heights[y + 1][x + 1];
    var bottomLeft, bottomRight := Vec3(x0, y0, h1), Vec3(x1, y0, h2);
    var topLeft, topRight := Vec3(x0, y1, h3), Vec3(x1, y1, h4);
    var color := ColorForHeight(maxHeight, (h1 + h2 + h3 + h4) / 4.0);
    var uv := Vec2(0.0, 0.0);
    ghost var k := CellCorners(d, heights, x, y);
    assert k == Corners(bottomLeft, bottomRight, topLeft, topRight);
    assert color == CellColor(d, heights, maxHeight, x, y);
    CellCornersOnGrid(d, heights, x, y);
    TrianglesFaceUp(k, d.CellWidth(), d.CellHeight());
    if flip {
      var n1 := FaceNormal(sqrt, bottomLeft, bottomRight, topRight);
      verts := verts + [Vertex(bottomLeft, n1, uv, color), Vertex(bottomRight, n1, uv, color), Vertex(topRight, n1, uv, color)];
      tris := tris + [Triangle(vertexIndex, vertexIndex + 1, vertexIndex + 2)];
      vertexIndex := vertexIndex + 3;
      var n2 := FaceNormal(sqrt, bottomLeft, topRight, topLeft);
      verts := verts + [Vertex(bottomLeft, n2, uv, color), Vertex(topRight, n2, uv, color), Vertex(topLeft, n2, uv, color)];
      tris := tris + [Triangle(vertexIndex, vertexIndex + 1, vertexIndex + 2)];
      vertexIndex := vertexIndex + 3;
      assert verts == CellVertices(sqrt, d, heights, maxHeight, x, y, flip) by {
        assert CellPositions(k, flip) == [bottomLeft, bottomRight, topRight, bottomLeft, topRight, topLeft];
        assert CellNormals(sqrt, k, flip) == [n1, n1, n1, n2, n2, n2];
      }
    } else {
      var n1 := FaceNormal(sqrt, bottomLeft, bottomRight, topLeft);
      verts := verts + [Vertex(bottomLeft, n1, uv, color), Vertex(bottomRight, n1, uv, color), Vertex(topLeft, n1, uv, color)];
      tris := tris + [Triangle(vertexIndex, vertexIndex + 1, vertexIndex + 2)];
      vertexIndex := vertexIndex + 3;
      var n2 := FaceNormal(sqrt, bottomRight, topRight, topLeft);
      verts := verts + [Vertex(bottomRight, n2, uv, color), Vertex(topRight, n2, uv, color), Vertex(topLeft, n2, uv, color)];
      tris := tris + [Triangle(vertexIndex, vertexIndex + 1, vertexIndex + 2)];
      vertexIndex := vertexIndex + 3;
      assert verts == CellVertices(sqrt, d, heights, maxHeight, x, y, flip) by {
        assert CellPositions(k, flip) == [bottomLeft, bottomRight, topLeft, bottomRight, topRight, topLeft];
        assert CellNormals(sqrt, k, flip) == [n1, n1, n1, n2, n2, n2];
      }
    }
  }

  /** The nested loops of `generateGeometry`: cells row by row, six vertices and two triangles each. */
  method BuildMesh(sqrt: real -> real, d: Dims, hs: Heights, maxHeight: real, flips: seq<bool>)
    returns (verts: seq<Vertex>, tris: seq<Triangle>)
    requires IsSqrt(sqrt) && d.Valid() && Shaped(d, hs) && maxHeight > 0.0 && |flips| == CellCount(d)
    ensures verts == BuiltVertices(sqrt, d, hs, maxHeight, flips, CellCount(d))
    ensures tris == BuiltTriangles(CellCount(d))
  {
    verts, tris := [], [];
    var vertexIndex := 0;
    ghost var cell := 0;
    var y := 0;
    while y < d.segmentsY
      invariant 0 <= y <= d.segmentsY && cell == y * d.segmentsX && cell <= CellCount(d)
      invariant verts == BuiltVertices(sqrt, d, hs, maxHeight, flips, cell)
      invariant tris == BuiltTriangles(cell)
      invariant vertexIndex == |verts|
    {
      var x := 0;
      while x < d.segmentsX
        invariant 0 <= x <= d.segmentsX && cell == y * d.segmentsX + x && cell <= CellCount(d)
        invariant verts == BuiltVertices(sqrt, d, hs, maxHeight, flips, cell)
        invariant tris == BuiltTriangles(cell)
        invariant vertexIndex == |verts|
      {
        BuiltVerticesStep(sqrt, d, hs, maxHeight, flips, x, y);
        BuiltTrianglesStep(cell);
        var block, blockTris := CellGeometry(sqrt, d, hs, maxHeight, x, y, flips[y * d.segmentsX + x], vertexIndex);
        verts := verts + block;
        tris := tris + blockTris;
        vertexIndex := vertexIndex + 6;
        cell := cell + 1;
        x := x + 1;
      }
      y := y + 1;
    }
  }

  // ---------------------------------------------------------------------
  // The scan `getCells` makes over the brush's bounding box

  /** Box `b` lies within the grid's vertex indices. */
  predicate InGrid(d: Dims, b: Box) {
    0 <= b.minX && b.maxX <= d.segmentsX && 0 <= b.minY && b.maxY <= d.segmentsY
  }

  /** Grid vertex `(x, y)` comes before `(gx, gy)` in the row-by-row scan of box `b`. */
  predicate Scanned(b: Box, gy: int, gx: int, x: int, y: int) {
    b.minX <= x <= b.maxX && b.minY <= y && (y < gy || (y == gy && x < gx))
  }

  /** The grid vertices within the brush. */
  function TouchedVertices(sqrt: real -> real, d: Dims, point: Vec3, radius: real): set<(int, int)>
    requires d.Valid()
  {
    set gx, gy | 0 <= gx <= d.segmentsX && 0 <= gy <= d.segmentsY && Touched(sqrt, d, point, radius, gx, gy) :: (gx, gy)
  }

  /** The touched vertices the scan has passed once it reaches `(gx, gy)`. */
  function HitSoFar(touched: set<(int, int)>, b: Box, gy: int, gx: int): set<(int, int)> {
    set v | v in touched && Scanned(b, gy, gx, v.0, v.1)
  }

  /** The cells a vertex within the brush adds: the up to four cells it is a corner of. */
  function CellsAround(d: Dims, gx: int, gy: int): set<(int, int)>
    requires d.Valid()
  {
    (if gx > 0 && gy > 0 then {(gx - 1, gy - 1)} else {}) +
    (if gx < d.segmentsX && gy > 0 then {(gx, gy - 1)} else {}) +
    (if gx > 0 && gy < d.segmentsY then {(gx - 1, gy)} else {}) +
    (if gx < d.segmentsX && gy < d.segmentsY then {(gx, gy)} else {})
  }

  /** The cells around some vertex of `hits`: the cells with a corner in `hits`. */
  function CellsAroundAll(d: Dims, hits: set<(int, int)>): set<(int, int)>
    requires d.Valid()
  {
    set v, c | v in hits && c in CellsAround(d, v.0, v.1) :: c
  }

  /** One more hit vertex adds exactly the cells around it. */
  lemma CellsStep(d: Dims, hits: set<(int, int)>, gx: int, gy: int)
    requires d.Valid()
    ensures CellsAroundAll(d, hits + {(gx, gy)}) == CellsAroundAll(d, hits) + CellsAround(d, gx, gy)
  {
    var after := CellsAroundAll(d, hits + {(gx, gy)});
    forall c | c in CellsAround(d, gx, gy) ensures c in after {
      var v := (gx, gy);
      assert v in hits + {(gx, gy)} && c in CellsAround(d, v.0, v.1);
    }
  }

  /** Scanning vertex `(gx, gy)` adds it to the hits iff it is touched. */
  lemma HitStep(touched: set<(int, int)>, b: Box, gy: int, gx: int)
    requires b.minX <= gx <= b.maxX && b.minY <= gy
    ensures HitSoFar(touched, b, gy, gx + 1) ==
      HitSoFar(touched, b, gy, gx) + (if (gx, gy) in touched then {(gx, gy)} else {})
  {
  }

  /** Finishing a row of the box is starting the next one. */
  lemma RowStep(touched: set<(int, int)>, b: Box, gy: int, gx: int)
    requires gx > b.maxX
    ensures HitSoFar(touched, b, gy, gx) == HitSoFar(touched, b, gy + 1, b.minX)
  {
  }

  /** Past the last row, the scan has passed every vertex the brush touches. */
  lemma ScanComplete(sqrt: real -> real, d: Dims, point: Vec3, radius: real, gy: int)
    requires IsSqrt(sqrt) && d.Valid()
    requires var b := BrushBox(d, point, radius); gy > b.maxY
    ensures var b := BrushBox(d, point, radius); var touched := TouchedVertices(sqrt, d, point, radius);
      HitSoFar(touched, b, gy, b.minX) == touched &&
      CellsAroundAll(d, touched) == BrushedCells(sqrt, d, point, radius)
  {
    var b := BrushBox(d, point, radius);
    var touched := TouchedVertices(sqrt, d, point, radius);
    forall v | v in touched ensures Scanned(b, gy, b.minX, v.0, v.1) {
      TouchedInBox(sqrt, d, point, radius, v.0, v.1);
    }
    ReportedCells(sqrt, d, point, radius);
  }

  /** The cells around the touched vertices are exactly the cells the brush reaches. */
  lemma ReportedCells(sqrt: real -> real, d: Dims, point: Vec3, radius: real)
    requires d.Valid()
    ensures CellsAroundAll(d, TouchedVertices(sqrt, d, point, radius)) == BrushedCells(sqrt, d, point, radius)
  {
    var touched := TouchedVertices(sqrt, d, point, radius);
    var reported, cells := CellsAroundAll(d, touched), BrushedCells(sqrt, d, point, radius);
    forall c | c in cells ensures c in reported {
      var (cx, cy) := c;
      if Touched(sqrt, d, point, radius, cx, cy) {
        CornerOfCell(sqrt, d, point, radius, touched, cx, cy, 0, 0);
      } else if Touched(sqrt, d, point, radius, cx + 1, cy) {
        CornerOfCell(sqrt, d, point, radius, touched, cx, cy, 1, 0);
      } else if Touched(sqrt, d, point, radius, cx, cy + 1) {
        CornerOfCell(sqrt, d, point, radius, touched, cx, cy, 0, 1);
      } else {
        CornerOfCell(sqrt, d, point, radius, touched, cx, cy, 1, 1);
      }
    }
    forall c | c in reported ensures c in cells {
      var v :| v in touched && c in CellsAround(d, v.0, v.1);
      CellOfCorner(sqrt, d, point, radius, v.0, v.1, c);
    }
  }

  /** Every cell around a touched vertex is a cell the brush reaches. */
  lemma CellOfCorner(sqrt: real -> real, d: Dims, point: Vec3, radius: real, gx: int, gy: int, c: (int, int))
    requires d.Valid() && (gx, gy) in TouchedVertices(sqrt, d, point, radius) && c in CellsAround(d, gx, gy)
    ensures c in BrushedCells(sqrt, d, point, radius)
  {
    TouchedMember(sqrt, d, point, radius, gx, gy);
    assert 0 <= c.0 < d.segmentsX && 0 <= c.1 < d.segmentsY;
    assert Touched(sqrt, d, point, radius, c.0 + (gx - c.0), c.1 + (gy - c.1));
  }

  /** A touched corner of a cell reports that cell. */
  lemma CornerOfCell(sqrt: real -> real, d: Dims, point: Vec3, radius: real, touched: set<(int, int)>,
                     cx: int, cy: int, dx: int, dy: int)
    requires d.Valid() && touched == TouchedVertices(sqrt, d, point, radius)
    requires 0 <= cx < d.segmentsX && 0 <= cy < d.segmentsY && 0 <= dx <= 1 && 0 <= dy <= 1
    requires Touched(sqrt, d, point, radius, cx + dx, cy + dy)
    ensures (cx, cy) in CellsAroundAll(d, touched)
  {
    var v := (cx + dx, cy + dy);
    TouchedMember(sqrt, d, point, radius, v.0, v.1);
    assert (cx, cy) in CellsAround(d, v.0, v.1);
  }

  /** Before the scan starts nothing has changed. */
  lemma ScanStart(sqrt: real -> real, d: Dims, hs: Heights, point: Vec3, radius: real, update: Vec3 -> real, b: Box)
    requires d.Valid() && Shaped(d, hs)
    ensures ScannedHeights(sqrt, d, hs, point, radius, update, b, b.minY, b.minX) == hs
  {
    var r := ScannedHeights(sqrt, d, hs, point, radius, update, b, b.minY, b.minX);
    forall y | 0 <= y <= d.segmentsY ensures r[y] == hs[y] {
    }
  }

  /** The heights once the scan reaches `(gx, gy)`: brushed where scanned, as before elsewhere. */
  function ScannedHeights(sqrt: real -> real, d: Dims, hs: Heights, point: Vec3, radius: real,
                          update: Vec3 -> real, b: Box, gy: int, gx: int): (r: Heights)
    requires d.Valid() && Shaped(d, hs)
    ensures Shaped(d, r)
  {
    seq(d.segmentsY + 1, y requires 0 <= y <= d.segmentsY =>
      seq(d.segmentsX + 1, x requires 0 <= x <= d.segmentsX =>
        if Scanned(b, gy, gx, x, y) then BrushedSample(sqrt, d, hs, point, radius, update, x, y) else hs[y][x]))
  }

  /** Past the last row, the scanned heights are the brushed heights. */
  lemma HeightsComplete(sqrt: real -> real, d: Dims, hs: Heights, point: Vec3, radius: real, update: Vec3 -> real, gy: int)
    requires IsSqrt(sqrt) && d.Valid() && Shaped(d, hs)
    requires var b := BrushBox(d, point, radius); gy > b.maxY
    ensures ScannedHeights(sqrt, d, hs, point, radius, update, BrushBox(d, point, radius), gy, BrushBox(d, point, radius).minX)
         == BrushedHeights(sqrt, d, hs, point, radius, update)
  {
    var b := BrushBox(d, point, radius);
    var r1 := ScannedHeights(sqrt, d, hs, point, radius, update, b, gy, b.minX);
    var r2 := BrushedHeights(sqrt, d, hs, point, radius, update);
    forall y | 0 <= y <= d.segmentsY ensures r1[y] == r2[y] {
      forall x | 0 <= x <= d.segmentsX ensures r1[y][x] == r2[y][x] {
        if Touched(sqrt, d, point, radius, x, y) {
          TouchedInBox(sqrt, d, point, radius, x, y);
        }
      }
    }
  }

  /** Scanning vertex `(gx, gy)` replaces its sample by the brushed one. */
  lemma HeightsStep(sqrt: real -> real, d: Dims, hs: Heights, point: Vec3, radius: real, update: Vec3 -> real,
                    b: Box, gy: int, gx: int)
    requires d.Valid() && Shaped(d, hs) && b.minX <= gx <= b.maxX && b.minY <= gy
    requires 0 <= gx <= d.segmentsX && 0 <= gy <= d.segmentsY
    ensures var r := ScannedHeights(sqrt, d, hs, point, radius, update, b, gy, gx);
      r[gy][gx] == hs[gy][gx] &&
      ScannedHeights(sqrt, d, hs, point, radius, update, b, gy, gx + 1) ==
      r[gy := r[gy][gx := BrushedSample(sqrt, d, hs, point, radius, update, gx, gy)]]
  {
    var r := ScannedHeights(sqrt, d, hs, point, radius, update, b, gy, gx);
    var r2 := ScannedHeights(sqrt, d, hs, point, radius, update, b, gy, gx + 1);
    var r3 := r[gy := r[gy][gx := BrushedSample(sqrt, d, hs, point, radius, update, gx, gy)]];
    forall y | 0 <= y <= d.segmentsY ensures r2[y] == r3[y] {
    }
  }

  lemma HeightsRowStep(sqrt: real -> real, d: Dims, hs: Heights, point: Vec3, radius: real, update: Vec3 -> real,
                       b: Box, gy: int, gx: int)
    requires d.Valid() && Shaped(d, hs) && gx > b.maxX
    ensures ScannedHeights(sqrt, d, hs, point, radius, update, b, gy, gx) ==
            ScannedHeights(sqrt, d, hs, point, radius, update, b, gy + 1, b.minX)
  {
    var r1 := ScannedHeights(sqrt, d, hs, point, radius, update, b, gy, gx);
    var r2 := ScannedHeights(sqrt, d, hs, point, radius, update, b, gy + 1, b.minX);
    forall y | 0 <= y <= d.segmentsY ensures r1[y] == r2[y] {
    }
  }

  /**
   * One step of the scan: vertex `(gx, gy)` is hit iff its distance is
   * within the radius, and applying the brush to it (or leaving it, when it
   * is not hit) moves the heights on to the next scan position.
   */
  lemma ScanVertex(sqrt: real -> real, d: Dims, hs: Heights, point: Vec3, radius: real, update: Vec3 -> real,
                   b: Box, touched: set<(int, int)>, gy: int, gx: int, heights: Heights, vec: Vec3,
                   dist: real, delta: real)
    requires d.Valid() && Shaped(d, hs) && b.minX <= gx <= b.maxX && b.minY <= gy
    requires 0 <= gx <= d.segmentsX && 0 <= gy <= d.segmentsY
    requires touched == TouchedVertices(sqrt, d, point, radius)
    requires heights == ScannedHeights(sqrt, d, hs, point, radius, update, b, gy, gx)
    requires var w := GridToWorld(d, gx as real, gy as real); vec == point.Minus(Vec3(w.x, w.y, heights[gy][gx]))
    requires dist == LengthXY(sqrt, vec) && delta == update(vec)
    ensures HitSoFar(touched, b, gy, gx + 1) ==
      HitSoFar(touched, b, gy, gx) + (if dist <= radius then {(gx, gy)} else {})
    ensures dist <= radius ==>
      heights[gy := heights[gy][gx := heights[gy][gx] + delta]] ==
      ScannedHeights(sqrt, d, hs, point, radius, update, b, gy, gx + 1)
    ensures dist > radius ==> heights == ScannedHeights(sqrt, d, hs, point, radius, update, b, gy, gx + 1)
  {
    HeightsStep(sqrt, d, hs, point, radius, update, b, gy, gx);
    assert vec == VertexOffset(d, hs, point, gx, gy);
    DistanceToVertex(sqrt, d, point, gx, gy, hs[gy][gx]);
    TouchedMember(sqrt, d, point, radius, gx, gy);
    HitStep(touched, b, gy, gx);
    if dist > radius {
      assert heights[gy][gx := heights[gy][gx]] == heights[gy];
      assert heights[gy := heights[gy]] == heights;
    }
  }

  /** The distance `getCells` measures is the XY distance from the vertex to the point, whatever its height. */
  lemma DistanceToVertex(sqrt: real -> real, d: Dims, point: Vec3, gx: int, gy: int, z: real)
    requires d.Valid()
    ensures var w := GridToWorld(d, gx as real, gy as real);
      LengthXY(sqrt, point.Minus(Vec3(w.x, w.y, z))) == LengthXY(sqrt, PlanarOffset(d, point, gx, gy))
  {
    var w := GridToWorld(d, gx as real, gy as real);
    SameFootprintLength(point.Minus(Vec3(w.x, w.y, z)), PlanarOffset(d, point, gx, gy));
  }

  lemma SameFootprintLength(a: Vec3, b: Vec3)
    requires a.x == b.x && a.y == b.y
    ensures a.SquaredLengthXY() == b.SquaredLengthXY()
  {
    SquareOfEqual(a.x, b.x);
    SquareOfEqual(a.y, b.y);
  }

  lemma SquareOfEqual(p: real, q: real)
    requires p == q
    ensures p * p == q * q
  {
  }

  /** Vertex `(gx, gy)` of the grid is in the touched set iff it is within the brush. */
  lemma TouchedMember(sqrt: real -> real, d: Dims, point: Vec3, radius: real, gx: int, gy: int)
    requires d.Valid() && 0 <= gx <= d.segmentsX && 0 <= gy <= d.segmentsY
    ensures (gx, gy) in TouchedVertices(sqrt, d, point, radius) <==> Touched(sqrt, d, point, radius, gx, gy)
  {
  }

  // ---------------------------------------------------------------------
  // The node model

  class LowPolyTerrainModel {
    const width: real
    const height: real
    const segmentsX: int
    const segmentsY: int
    /** The height that gets the last colour of the ramp; the source never changes it. */
    const maxHeight: real

    var heights: Heights
    /** The vertex array: position, normal, uv and colour of each vertex. */
    var vertices: seq<Vertex>
    var triangles: seq<Triangle>
    /** How many times the model has signalled that its geometry changed. */
    var geometryUpdates: nat
    /** The diagonal drawn in each cell when the mesh was last built. */
    ghost var flips: seq<bool>

    function Grid(): Dims {
      Dims(width, height, segmentsX, segmentsY)
    }

    ghost predicate Valid()
      reads this
    {
      Grid().Valid() && maxHeight > 0.0 && Shaped(Grid(), heights)
    }

    /** The mesh shows the current heights: the state `generateGeometry` leaves. */
    ghost predicate Synced()
      reads this
    {
      Valid() && |flips| == CellCount(Grid()) &&
      Shows(Grid(), heights, maxHeight, flips, vertices) &&
      triangles == BuiltTriangles(CellCount(Grid()))
    }

    /** Missing arguments default to a 10 x 10 terrain of 16 x 16 cells. */
    constructor (width: Option<real>, height: Option<real>, segmentsX: Option<int>, segmentsY: Option<int>)
      requires Dims(width.GetOr(10.0), height.GetOr(10.0), segmentsX.GetOr(16), segmentsY.GetOr(16)).Valid()
      ensures Valid()
      ensures Grid() == Dims(width.GetOr(10.0), height.GetOr(10.0), segmentsX.GetOr(16), segmentsY.GetOr(16))
      ensures heights == FlatHeights(Grid()) && maxHeight == 6.0
      ensures vertices == [] && triangles == [] && geometryUpdates == 0
    {
      this.width := width.GetOr(10.0);
      this.height := height.GetOr(10.0);
      this.segmentsX := segmentsX.GetOr(16);
      this.segmentsY := segmentsY.GetOr(16);
      maxHeight := 6.0;
      heights := [];
      vertices := [];
      triangles := [];
      geometryUpdates := 0;
      flips := [];
      new;
      InitHeights();
    }

    /** Resets every sample to 0, row by row. */
    method InitHeights()
      requires Grid().Valid()
      modifies this`heights
      ensures heights == FlatHeights(Grid())
    {
      var d := Grid();
      heights := [];
      var y := 0;
      while y <= segmentsY
        invariant 0 <= y <= segmentsY + 1
        invariant heights == FlatHeights(d)[..y]
      {
        var row: seq<real> := [];
        var x := 0;
        while x <= segmentsX
          invariant 0 <= x <= segmentsX + 1
          invariant row == seq(x, _ => 0.0)
        {
          row := row + [0.0];
          x := x + 1;
        }
        heights := heights + [row];
        y := y + 1;
      }
    }

    /**
     * Overwrites every sample with `HillSample` (defaults: scale 0.3,
     * amplitude 0.5), then rebuilds the mesh with diagonals `flips`.
     */
    method GenerateHills(sqrt: real -> real, noise: (real, real) -> real, noiseScale: Option<real>,
                         amplitude: Option<real>, flips: seq<bool>)
      requires IsSqrt(sqrt) && Valid() && |flips| == CellCount(Grid())
      modifies this`heights, this`vertices, this`triangles, this`geometryUpdates, this`flips
      ensures heights == HillHeights(Grid(), noise, noiseScale.GetOr(0.3), amplitude.GetOr(0.5))
      ensures vertices == BuiltVertices(sqrt, Grid(), heights, maxHeight, flips, CellCount(Grid()))
      ensures this.flips == flips && geometryUpdates == old(geometryUpdates) + 1
      ensures Synced()
    {
      var d := Grid();
      var scale, amp := noiseScale.GetOr(0.3), amplitude.GetOr(0.5);
      ghost var target := HillHeights(d, noise, scale, amp);
      var y := 0;
      while y <= segmentsY
        invariant 0 <= y <= segmentsY + 1
        invariant Shaped(d, heights)
        invariant forall j :: 0 <= j < y ==> heights[j] == target[j]
        invariant geometryUpdates == old(geometryUpdates)
      {
        var x := 0;
        while x <= segmentsX
          invariant 0 <= x <= segmentsX + 1
          invariant Shaped(d, heights)
          invariant forall j :: 0 <= j < y ==> heights[j] == target[j]
          invariant forall i :: 0 <= i < x ==> heights[y][i] == target[y][i]
          invariant geometryUpdates == old(geometryUpdates)
        {
          var row := heights[y][x := HillSample(d, noise, scale, amp, x, y)];
          heights := heights[y := row];
          x := x + 1;
        }
        assert heights[y] == target[y];
        y := y + 1;
      }
      assert heights == target;
      GenerateGeometry(sqrt, flips);
    }

    /**
     * Rebuilds the vertex array and the triangle list from the heights:
     * two triangles per cell, split along the diagonal `flips[c]` picks for
     * cell `c` (the source's `Math.random() > 0.5`).
     */
    method GenerateGeometry(sqrt: real -> real, flips: seq<bool>)
      requires IsSqrt(sqrt) && Valid() && |flips| == CellCount(Grid())
      modifies this`vertices, this`triangles, this`geometryUpdates, this`flips
      ensures vertices == BuiltVertices(sqrt, Grid(), heights, maxHeight, flips, CellCount(Grid()))
      ensures triangles == BuiltTriangles(CellCount(Grid()))
      ensures this.flips == flips && geometryUpdates == old(geometryUpdates) + 1
      ensures Synced()
    {
      var verts, tris := BuildMesh(sqrt, Grid(), heights, maxHeight, flips);
      vertices := verts;
      triangles := tris;
      this.flips := flips;
      geometryUpdates := geometryUpdates + 1;
      BuiltShows(sqrt, Grid(), heights, maxHeight, flips);
    }

    /**
     * One brush stroke: adds `heightUpdate(vec)` once to every grid vertex
     * within XY distance `radius` of `point`, where `vec` is the offset from
     * the vertex to the point, and returns the cells with such a vertex as a
     * corner. Only the clamped bounding box of the brush is scanned.
     */
    method GetCells(sqrt: real -> real, point: Vec3, radius: real, heightUpdate: Vec3 -> real)
      returns (visited: set<(int, int)>)
      requires IsSqrt(sqrt) && Valid()
      modifies this`heights
      ensures heights == BrushedHeights(sqrt, Grid(), old(heights), point, radius, heightUpdate)
      ensures visited == BrushedCells(sqrt, Grid(), point, radius)
      ensures Valid()
    {
      var d := Grid();
      ghost var hs := heights;
      ghost var touched := TouchedVertices(sqrt, d, point, radius);
      var center := WorldToGrid(d, point.x, point.y);
      var cellw := width / segmentsX as real;
      var cellh := height / segmentsY as real;
      var gridRadiusX := radius / cellw;
      var gridRadiusY := radius / cellh;
      var minX := LowIndex(center.x - gridRadiusX);
      var maxX := HighIndex(center.x + gridRadiusX, segmentsX);
      var minY := LowIndex(center.y - gridRadiusY);
      var maxY := HighIndex(center.y + gridRadiusY, segmentsY);
      var b := Box(minX, maxX, minY, maxY);
      assert b == BrushBox(d, point, radius) && InGrid(d, b);
      visited := {};
      ScanStart(sqrt, d, hs, point, radius, heightUpdate, b);
      var rows := heights;
      var gy := minY;
      while gy <= maxY
        invariant minY <= gy && (gy <= maxY + 1 || gy == minY)
        invariant rows == ScannedHeights(sqrt, d, hs, point, radius, heightUpdate, b, gy, minX)
        invariant visited == CellsAroundAll(d, HitSoFar(touched, b, gy, minX))
      {
        rows, visited := ScanRow(sqrt, d, hs, point, radius, heightUpdate, b, touched, gy, rows, visited);
        gy := gy + 1;
      }
      ScanComplete(sqrt, d, point, radius, gy);
      HeightsComplete(sqrt, d, hs, point, radius, heightUpdate, gy);
      heights := rows;
    }

    /**
     * The inner loop of `getCells`: one row `gy` of the box, left to right.
     * Each vertex within `radius` (measured in the XY plane) gets the brush's
     * height change, and the up to four cells around it join `visited`.
     */
    static method ScanRow(sqrt: real -> real, d: Dims, ghost hs: Heights, point: Vec3, radius: real,
                          heightUpdate: Vec3 -> real, b: Box, ghost touched: set<(int, int)>,
                          gy: int, rows: Heights, visited: set<(int, int)>)
      returns (rows': Heights, visited': set<(int, int)>)
      requires d.Valid() && Shaped(d, hs) && InGrid(d, b) && b.minY <= gy <= b.maxY
      requires touched == TouchedVertices(sqrt, d, point, radius)
      requires rows == ScannedHeights(sqrt, d, hs, point, radius, heightUpdate, b, gy, b.minX)
      requires visited == CellsAroundAll(d, HitSoFar(touched, b, gy, b.minX))
      ensures rows' == ScannedHeights(sqrt, d, hs, point, radius, heightUpdate, b, gy + 1, b.minX)
      ensures visited' == CellsAroundAll(d, HitSoFar(touched, b, gy + 1, b.minX))
    {
      rows', visited' := rows, visited;
      var gx := b.minX;
      while gx <= b.maxX
        invariant b.minX <= gx && (gx <= b.maxX + 1 || gx == b.minX)
        invariant rows' == ScannedHeights(sqrt, d, hs, point, radius, heightUpdate, b, gy, gx)
        invariant visited' == CellsAroundAll(d, HitSoFar(touched, b, gy, gx))
      {
        rows', visited' := ScanOne(sqrt, d, hs, point, radius, heightUpdate, b, touched, gy, gx, rows', visited');
        gx := gx + 1;
      }
      RowStep(touched, b, gy, gx);
      HeightsRowStep(sqrt, d, hs, point, radius, heightUpdate, b, gy, gx);
    }

    /**
     * The body of the inner loop of `getCells` for vertex `(gx, gy)`: the
     * brush's height change when the vertex is within `radius` in the XY
     * plane, together with the cells around it.
     */
    static method ScanOne(sqrt: real -> real, d: Dims, ghost hs: Heights, point: Vec3, radius: real,
                          heightUpdate: Vec3 -> real, b: Box, ghost touched: set<(int, int)>,
                          gy: int, gx: int, rows: Heights, visited: set<(int, int)>)
      returns (rows': Heights, visited': set<(int, int)>)
      requires d.Valid() && Shaped(d, hs) && InGrid(d, b)
      requires b.minY <= gy <= b.maxY && b.minX <= gx <= b.maxX
      requires touched == TouchedVertices(sqrt, d, point, radius)
      requires rows == ScannedHeights(sqrt, d, hs, point, radius, heightUpdate, b, gy, gx)
      requires visited == CellsAroundAll(d, HitSoFar(touched, b, gy, gx))
      ensures rows' == ScannedHeights(sqrt, d, hs, point, radius, heightUpdate, b, gy, gx + 1)
      ensures visited' == CellsAroundAll(d, HitSoFar(touched, b, gy, gx + 1))
    {
      var worldPos := GridToWorld(d, gx as real, gy as real);
      var vec := point.Minus(Vec3(worldPos.x, worldPos.y, rows[gy][gx]));
      var dist := LengthXY(sqrt, vec);
      var delta := heightUpdate(vec);
      ScanVertex(sqrt, d, hs, point, radius, heightUpdate, b, touched, gy, gx, rows, vec, dist, delta);
      rows', visited' := rows, visited;
      if dist <= radius {
        CellsStep(d, HitSoFar(touched, b, gy, gx), gx, gy);
        rows' := rows[gy := rows[gy][gx := rows[gy][gx] + delta]];
        visited' := visited + CellsAround(d, gx, gy);
      }
    }

    /**
     * Raises (or, for a negative strength, lowers) the terrain around
     * `point` by `BaseHeightChange`, then patches the mesh over the cells
     * the stroke reached, if it reached any. With cells at least `Eps` wide
     * and high, a mesh in step with the heights stays in step.
     */
    method Terraform(sqrt: real -> real, point: Vec3, radius: real, strength: real)
      requires IsSqrt(sqrt) && Valid() && radius != 0.0 && |vertices| == 6 * CellCount(Grid())
      modifies this`heights, this`vertices, this`geometryUpdates
      ensures Valid()
      ensures heights == BrushedHeights(sqrt, Grid(), old(heights), point, radius, BaseUpdate(sqrt, radius, strength))
      ensures vertices == PatchedVertices(Grid(), heights, maxHeight, old(vertices), BrushedCells(sqrt, Grid(), point, radius))
      ensures geometryUpdates == old(geometryUpdates) + if BrushedCells(sqrt, Grid(), point, radius) == {} then 0 else 1
      ensures old(Synced()) && Grid().CellWidth() >= Eps && Grid().CellHeight() >= Eps ==> Synced()
    {
      ghost var hs, vs, wasSynced := heights, vertices, Synced();
      var visited := GetCells(sqrt, point, radius, BaseUpdate(sqrt, radius, strength));
      if |visited| > 0 {
        UpdateVerticesForCells(visited);
      } else {
        PatchNothing(Grid(), heights, maxHeight, vertices);
      }
      if wasSynced && Grid().CellWidth() >= Eps && Grid().CellHeight() >= Eps {
        StrokeKeepsSync(sqrt, hs, vs, point, radius, BaseUpdate(sqrt, radius, strength));
      }
    }

    /**
     * Pulls the terrain around `point` towards the plane through `point`
     * with the given normal (no change without one), then patches the mesh
     * as `Terraform` does.
     */
    method Flatten(sqrt: real -> real, point: Vec3, radius: real, normal: Option<Vec3>, strength: real)
      requires IsSqrt(sqrt) && Valid() && radius != 0.0 && |vertices| == 6 * CellCount(Grid())
      requires normal.Some? ==> normal.value.SquaredLength() > 0.0
      modifies this`heights, this`vertices, this`geometryUpdates
      ensures Valid()
      ensures heights == BrushedHeights(sqrt, Grid(), old(heights), point, radius, FlattenUpdate(sqrt, normal, radius, strength))
      ensures vertices == PatchedVertices(Grid(), heights, maxHeight, old(vertices), BrushedCells(sqrt, Grid(), point, radius))
      ensures geometryUpdates == old(geometryUpdates) + if BrushedCells(sqrt, Grid(), point, radius) == {} then 0 else 1
      ensures old(Synced()) && Grid().CellWidth() >= Eps && Grid().CellHeight() >= Eps ==> Synced()
    {
      ghost var hs, vs, wasSynced := heights, vertices, Synced();
      var visited := GetCells(sqrt, point, radius, FlattenUpdate(sqrt, normal, radius, strength));
      if |visited| > 0 {
        UpdateVerticesForCells(visited);
      } else {
        PatchNothing(Grid(), heights, maxHeight, vertices);
      }
      if wasSynced && Grid().CellWidth() >= Eps && Grid().CellHeight() >= Eps {
        StrokeKeepsSync(sqrt, hs, vs, point, radius, FlattenUpdate(sqrt, normal, radius, strength));
      }
    }

    /**
     * A stroke followed by the patch of the cells it reports keeps the mesh
     * in step with the heights (given cells at least `Eps` across).
     */
    lemma StrokeKeepsSync(sqrt: real -> real, hs: Heights, vs: seq<Vertex>, point: Vec3, radius: real, update: Vec3 -> real)
      requires IsSqrt(sqrt) && Grid().Valid() && maxHeight > 0.0 && Shaped(Grid(), hs)
      requires heights == BrushedHeights(sqrt, Grid(), hs, point, radius, update) && |vs| == 6 * CellCount(Grid())
      requires vertices == PatchedVertices(Grid(), heights, maxHeight, vs, BrushedCells(sqrt, Grid(), point, radius))
      requires Grid().CellWidth() >= Eps && Grid().CellHeight() >= Eps && |flips| == CellCount(Grid())
      requires Shows(Grid(), hs, maxHeight, flips, vs) && triangles == BuiltTriangles(CellCount(Grid()))
      ensures Synced()
    {
      BrushChangesWithinCells(sqrt, Grid(), hs, point, radius, update);
      PatchRestoresMesh(Grid(), hs, heights, maxHeight, flips, vs, BrushedCells(sqrt, Grid(), point, radius));
    }

    /**
     * Re-places the vertices of the listed cells over the current heights
     * and recolours them, one cell at a time in whatever order the set
     * yields them, then signals a geometry update.
     */
    method UpdateVerticesForCells(cells: set<(int, int)>)
      requires Valid() && |vertices| == 6 * CellCount(Grid())
      requires forall c | c in cells :: 0 <= c.0 < segmentsX && 0 <= c.1 < segmentsY
      modifies this`vertices, this`geometryUpdates
      ensures vertices == PatchedVertices(Grid(), heights, maxHeight, old(vertices), cells)
      ensures geometryUpdates == old(geometryUpdates) + 1
    {
      var d := Grid();
      ghost var vs := vertices;
      PatchNothing(d, heights, maxHeight, vs);
      var remaining := cells;
      ghost var done: set<(int, int)> := {};
      while remaining != {}
        invariant remaining <= cells && done == cells - remaining
        invariant vertices == PatchedVertices(d, heights, maxHeight, vs, done)
        invariant geometryUpdates == old(geometryUpdates)
        decreases |remaining|
      {
        var c :| c in remaining;
        PatchOneMore(d, heights, maxHeight, vs, done, c);
        UpdateCell(c.0, c.1);
        remaining := remaining - {c};
        done := done + {c};
      }
      assert done == cells;
      geometryUpdates := geometryUpdates + 1;
    }

    /**
     * The body of the loop in `updateVerticesForCells` for cell `(x, y)`:
     * vertices 0 and 1 are set to the bottom corners, vertices 2 to 5 go
     * through `UpdateVertexZ`, and all six take the cell's colour.
     */
    method UpdateCell(x: int, y: int)
      requires Valid() && |vertices| == 6 * CellCount(Grid())
      requires 0 <= x < segmentsX && 0 <= y < segmentsY
      modifies this`vertices
      ensures vertices == PatchedVertices(Grid(), heights, maxHeight, old(vertices), {(x, y)})
    {
      var d := Grid();
      var cellW := width / segmentsX as real;
      var cellH := height / segmentsY as real;
      var halfW := width / 2.0;
      var halfH := height / 2.0;
      var vertexIndex := (y * segmentsX + x) * 6;
      CellIndexRoundTrip(d, x, y);
      var x0 := x as real * cellW - halfW;
      var x1 := (x + 1) as real * cellW - halfW;
      var y0 := y as real * cellH - halfH;
      var y1 := (y + 1) as real * cellH - halfH;
      var h1, h2, h3, h4 := heights[y][x], heights[y][x + 1], heights[y + 1][x], heights[y + 1][x + 1];
      var color := ColorForHeight(maxHeight, (h1 + h2 + h3 + h4) / 4.0);
      ghost var k := CellCorners(d, heights, x, y);
      assert k == Corners(Vec3(x0, y0, h1), Vec3(x1, y0, h2), Vec3(x0, y1, h3), Vec3(x1, y1, h4));
      assert color == CellColor(d, heights, maxHeight, x, y);
      ghost var before := vertices;
      PlaceBlock(vertexIndex, x0, x1, y0, y1, h1, h2, h3, h4);
      ghost var placed := vertices;
      ColorBlock(vertexIndex, color);
      BlockPatched(k, color, before, placed, vertices, vertexIndex);
      CellWrites(d, heights, maxHeight, before, vertices, x, y);
    }

    /**
     * The placing half of the loop body of `updateVerticesForCells`: the
     * six vertices from `first` on move onto the cell with corners at
     * `(x0 | x1, y0 | y1)` and heights `h1` to `h4`.
     */
    method PlaceBlock(first: int, x0: real, x1: real, y0: real, y1: real, h1: real, h2: real, h3: real, h4: real)
      requires 0 <= first && first + 6 <= |vertices|
      modifies this`vertices
      ensures BlockPlaced(Corners(Vec3(x0, y0, h1), Vec3(x1, y0, h2), Vec3(x0, y1, h3), Vec3(x1, y1, h4)),
                          old(vertices), vertices, first)
    {
      vertices := vertices[first := vertices[first].(position := Vec3(x0, y0, h1))];
      vertices := vertices[first + 1 := vertices[first + 1].(position := Vec3(x1, y0, h2))];
      var v2, v3 := vertices[first + 2].position, vertices[first + 3].position;
      var v4, v5 := vertices[first + 4].position, vertices[first + 5].position;
      UpdateVertexZ(first + 2, v2, x0, x1, y0, y1, h1, h2, h3, h4);
      UpdateVertexZ(first + 3, v3, x0, x1, y0, y1, h1, h2, h3, h4);
      UpdateVertexZ(first + 4, v4, x0, x1, y0, y1, h1, h2, h3, h4);
      UpdateVertexZ(first + 5, v5, x0, x1, y0, y1, h1, h2, h3, h4);
    }

    /** The colour loop of `updateVerticesForCells`: the six vertices from `first` on take `color`. */
    method ColorBlock(first: int, color: Color)
      requires 0 <= first && first + 6 <= |vertices|
      modifies this`vertices
      ensures |vertices| == |old(vertices)|
      ensures forall j :: 0 <= j < |vertices| ==>
        vertices[j] == if first <= j < first + 6 then old(vertices)[j].(color := color) else old(vertices)[j]
    {
      for i := 0 to 6
        invariant |vertices| == |old(vertices)|
        invariant forall j :: 0 <= j < |vertices| ==>
          vertices[j] == if first <= j < first + i then old(vertices)[j].(color := color) else old(vertices)[j]
      {
        vertices := vertices[first + i := vertices[first + i].(color := color)];
      }
    }

    /**
     * Gives vertex `index` the XY of `pos` and the height of the cell
     * corner it lies on (within `Eps` in x and y), or keeps `pos.z`.
     */
    method UpdateVertexZ(index: int, pos: Vec3, x0: real, x1: real, y0: real, y1: real,
                         h1: real, h2: real, h3: real, h4: real)
      requires 0 <= index < |vertices|
      modifies this`vertices
      ensures vertices == old(vertices)[index := old(vertices)[index].(position :=
        Vec3(pos.x, pos.y, MatchedZ(pos, x0, x1, y0, y1, h1, h2, h3, h4)))]
    {
      var newz := pos.z;
      if Abs(pos.x - x0) < Eps && Abs(pos.y - y0) < Eps {
        newz := h1;
      } else if Abs(pos.x - x1) < Eps && Abs(pos.y - y0) < Eps {
        newz := h2;
      } else if Abs(pos.x - x0) < Eps && Abs(pos.y - y1) < Eps {
        newz := h3;
      } else if Abs(pos.x - x1) < Eps && Abs(pos.y - y1) < Eps {
        newz := h4;
      }
      vertices := vertices[index := vertices[index].(position := Vec3(pos.x, pos.y, newz))];
    }

    /**
     * `moveZ(index, dist, verts, [strength, radius])`: lifts vertex `index`
     * by `strength * (1 - dist/radius)^2` and returns its new position. The
     * vertex array is a value here: the result is the updated array.
     */
    static function MoveZ(vs: seq<Vertex>, index: int, dist: real, strength: real, radius: real): (r: (seq<Vertex>, Vec3))
      requires 0 <= index < |vs| && radius != 0.0
      ensures |r.0| == |vs| && r.0[index].position == r.1
      ensures r.1.x == vs[index].position.x && r.1.y == vs[index].position.y
      ensures forall i :: 0 <= i < |vs| && i != index ==> r.0[i] == vs[i]
    {
      var falloff := 1.0 - dist / radius;
      var squared := falloff * falloff;
      var vert := vs[index].position;
      var moved := vs[index := vs[index].(position := Vec3(vert.x, vert.y, vert.z + strength * squared))];
      (moved, moved[index].position)
    }

    /**
     * `moveZ` lifts a vertex by exactly what `baseHeightChange` gives for an
     * offset of XY length `dist`, though it takes its two extra arguments in
     * the opposite order.
     */
    static lemma MoveZMatchesBase(sqrt: real -> real, vs: seq<Vertex>, index: int, vec: Vec3, strength: real, radius: real)
      requires 0 <= index < |vs| && radius != 0.0
      ensures var r := MoveZ(vs, index, LengthXY(sqrt, vec), strength, radius);
        r.1.z == vs[index].position.z + BaseHeightChange(sqrt, vec, radius, strength)
    {
    }

    /**
     * Builds a terrain (missing arguments take the constructor's defaults)
     * and its mesh, with diagonals `flips`.
     */
    static method Create(sqrt: real -> real, width: Option<real>, height: Option<real>, segmentsX: Option<int>,
                         segmentsY: Option<int>, flips: seq<bool>) returns (terrain: LowPolyTerrainModel)
      requires IsSqrt(sqrt)
      requires var d := Dims(width.GetOr(10.0), height.GetOr(10.0), segmentsX.GetOr(16), segmentsY.GetOr(16));
        d.Valid() && |flips| == CellCount(d)
      ensures fresh(terrain) && terrain.Synced()
      ensures terrain.Grid() == Dims(width.GetOr(10.0), height.GetOr(10.0), segmentsX.GetOr(16), segmentsY.GetOr(16))
      ensures terrain.heights == FlatHeights(terrain.Grid()) && terrain.flips == flips
      ensures terrain.geometryUpdates == 1
    {
      terrain := new LowPolyTerrainModel(width, height, segmentsX, segmentsY);
      terrain.GenerateGeometry(sqrt, flips);
    }
  }
}
