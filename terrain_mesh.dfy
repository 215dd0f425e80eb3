// The flat-shaded mesh of LowPolyTerrainModel as values: what
// `generateGeometry` builds from the height grid, what
// `updateVerticesForCells` / `updateVertexZ` patch in it after a brush
// stroke, and the theorem that the patch brings the mesh back in line with
// the heights.
//
// The vertex array is a sequence of `Vertex` records, one per mesh vertex,
// holding the four parallel attributes (position, normal, uv, colour) of
// the source's `VertexArray3D`. Cell `c` (numbered row by row,
// `c = y * segmentsX + x`) owns the six vertices `6c .. 6c+5`: two
// triangles that do not share vertices, which is what makes the terrain
// look faceted.

module TerrainMesh {
  import opened Geometry
  import opened TerrainGrid
  import opened TerrainBrush

  /** The corner-matching tolerance of `updateVertexZ`. */
  const Eps: real := 0.001

  function CellCount(d: Dims): int
    requires d.Valid()
  {
    d.segmentsX * d.segmentsY
  }

  /** `(y * segmentsX + x)`: the number of cell `(x, y)` in generation order. */
  function CellIndex(d: Dims, x: int, y: int): int
    requires d.Valid()
  {
    y * d.segmentsX + x
  }

  /** The column and row of cell number `c`. */
  function CellX(d: Dims, c: int): int
    requires d.Valid()
  {
    c % d.segmentsX
  }

  function CellY(d: Dims, c: int): int
    requires d.Valid()
  {
    c / d.segmentsX
  }

  /** Numbering the cells row by row is a bijection onto `[0, CellCount)`. */
  lemma CellIndexRoundTrip(d: Dims, x: int, y: int)
    requires d.Valid() && 0 <= x < d.segmentsX && 0 <= y < d.segmentsY
    ensures var c := CellIndex(d, x, y);
      0 <= c < CellCount(d) && CellX(d, c) == x && CellY(d, c) == y
  {
    var n := d.segmentsX;
    DivModUnique(n, y, x);
    assert y * n + x < (y + 1) * n;
    MultiplyMonotone(y + 1, d.segmentsY, n);
  }

  lemma CellNumberRoundTrip(d: Dims, c: int)
    requires d.Valid() && 0 <= c < CellCount(d)
    ensures 0 <= CellX(d, c) < d.segmentsX && 0 <= CellY(d, c) < d.segmentsY
    ensures CellIndex(d, CellX(d, c), CellY(d, c)) == c
  {
    var n := d.segmentsX;
    var q, r := c / n, c % n;
    assert c == q * n + r && 0 <= r < n;
    assert (q + 1) * n == c + n - r;
    PositiveFactorInt(q + 1, n);
    assert (d.segmentsY - q) * n == CellCount(d) - c + r;
    PositiveFactorInt(d.segmentsY - q, n);
  }

  lemma DivModUnique(n: int, q: int, r: int)
    requires n > 0 && 0 <= r < n
    ensures (q * n + r) / n == q && (q * n + r) % n == r
  {
    var a := q * n + r;
    var q', r' := a / n, a % n;
    assert a == q' * n + r' && 0 <= r' < n;
    assert (q - q') * n == r' - r;
    SmallMultiple(q - q', n, r' - r);
  }

  /** The only multiple of `n` strictly between `-n` and `n` is 0. */
  lemma SmallMultiple(k: int, n: int, m: int)
    requires n > 0 && k * n == m && -n < m < n
    ensures k == 0
  {
    assert (k + 1) * n == m + n;
    assert (1 - k) * n == n - m;
    PositiveFactorInt(k + 1, n);
    PositiveFactorInt(1 - k, n);
  }

  lemma PositiveFactorInt(a: int, n: int)
    requires a * n > 0 && n > 0
    ensures a > 0
  {
  }

  lemma MultiplyMonotone(a: int, b: int, n: int)
    requires a <= b && n > 0
    ensures a * n <= b * n
  {
    assert b * n - a * n == (b - a) * n;
  }

  // ---------------------------------------------------------------------
  // One cell

  /** The four corners of a cell, at their heights. */
  datatype Corners = Corners(bottomLeft: Vec3, bottomRight: Vec3, topLeft: Vec3, topRight: Vec3)

  /** The corners of cell `(x, y)` as `generateGeometry` and `updateVerticesForCells` place them. */
  function CellCorners(d: Dims, hs: Heights, x: int, y: int): Corners
    requires d.Valid() && Shaped(d, hs) && 0 <= x < d.segmentsX && 0 <= y < d.segmentsY
  {
    var cw, ch := d.CellWidth(), d.CellHeight();
    var x0 := x as real * cw - d.width / 2.0;
    var x1 := (x + 1) as real * cw - d.width / 2.0;
    var y0 := y as real * ch - d.height / 2.0;
    var y1 := (y + 1) as real * ch - d.height / 2.0;
    Corners(Vec3(x0, y0, hs[y][x]), Vec3(x1, y0, hs[y][x + 1]),
            Vec3(x0, y1, hs[y + 1][x]), Vec3(x1, y1, hs[y + 1][x + 1]))
  }

  /** The world position of grid vertex `(gx, gy)` at its height. */
  function GridPoint(d: Dims, hs: Heights, gx: int, gy: int): Vec3
    requires d.Valid() && Shaped(d, hs) && 0 <= gx <= d.segmentsX && 0 <= gy <= d.segmentsY
  {
    var w := GridToWorld(d, gx as real, gy as real);
    Vec3(w.x, w.y, hs[gy][gx])
  }

  /** An axis-parallel quad whose sides are `width` and `height` long. */
  predicate Rectangle(k: Corners, width: real, height: real) {
    width > 0.0 && height > 0.0 &&
    k.topLeft.x == k.bottomLeft.x && k.bottomRight.x == k.bottomLeft.x + width && k.topRight.x == k.bottomRight.x &&
    k.bottomRight.y == k.bottomLeft.y && k.topLeft.y == k.bottomLeft.y + height && k.topRight.y == k.topLeft.y
  }

  /**
   * The corners of a cell are its four grid vertices (the same points
   * `gridToWorld` gives), forming a cell-sized rectangle.
   */
  lemma CellCornersOnGrid(d: Dims, hs: Heights, x: int, y: int)
    requires d.Valid() && Shaped(d, hs) && 0 <= x < d.segmentsX && 0 <= y < d.segmentsY
    ensures var k := CellCorners(d, hs, x, y);
      k.bottomLeft == GridPoint(d, hs, x, y) && k.bottomRight == GridPoint(d, hs, x + 1, y) &&
      k.topLeft == GridPoint(d, hs, x, y + 1) && k.topRight == GridPoint(d, hs, x + 1, y + 1) &&
      Rectangle(k, d.CellWidth(), d.CellHeight())
  {
    GridToWorldX(d, x as real);
    GridToWorldX(d, (x + 1) as real);
    GridToWorldY(d, y as real);
    GridToWorldY(d, (y + 1) as real);
    CellSidesPositive(d);
    assert (x + 1) as real * d.CellWidth() == x as real * d.CellWidth() + d.CellWidth();
    assert (y + 1) as real * d.CellHeight() == y as real * d.CellHeight() + d.CellHeight();
  }

  lemma CellSidesPositive(d: Dims)
    requires d.Valid()
    ensures d.CellWidth() > 0.0 && d.CellHeight() > 0.0
  {
  }

  /** The footprints of two corner sets agree; only the heights may differ. */
  predicate SameFootprint(k1: Corners, k2: Corners) {
    k1.bottomLeft.x == k2.bottomLeft.x && k1.bottomLeft.y == k2.bottomLeft.y &&
    k1.bottomRight.x == k2.bottomRight.x && k1.bottomRight.y == k2.bottomRight.y &&
    k1.topLeft.x == k2.topLeft.x && k1.topLeft.y == k2.topLeft.y &&
    k1.topRight.x == k2.topRight.x && k1.topRight.y == k2.topRight.y
  }

  /** The average corner height of a cell, coloured by the height ramp. */
  function CellColor(d: Dims, hs: Heights, maxHeight: real, x: int, y: int): Color
    requires d.Valid() && Shaped(d, hs) && maxHeight > 0.0
    requires 0 <= x < d.segmentsX && 0 <= y < d.segmentsY
  {
    var k := CellCorners(d, hs, x, y);
    ColorForHeight(maxHeight, (k.bottomLeft.z + k.bottomRight.z + k.topLeft.z + k.topRight.z) / 4.0)
  }

  /**
   * The six vertex positions of a cell: two triangles split along the
   * diagonal bottom-left/top-right when `flip` (the source's
   * `Math.random() > 0.5`), along bottom-right/top-left otherwise.
   */
  function CellPositions(k: Corners, flip: bool): seq<Vec3> {
    if flip then [k.bottomLeft, k.bottomRight, k.topRight, k.bottomLeft, k.topRight, k.topLeft]
    else [k.bottomLeft, k.bottomRight, k.topLeft, k.bottomRight, k.topRight, k.topLeft]
  }

  /** Which corner of the cell, as a grid offset `(dx, dy)`, vertex `j` of the cell sits on. */
  function CornerOffset(flip: bool, j: int): (o: (int, int))
    requires 0 <= j < 6
    ensures 0 <= o.0 <= 1 && 0 <= o.1 <= 1
  {
    if flip then [(0, 0), (1, 0), (1, 1), (0, 0), (1, 1), (0, 1)][j]
    else [(0, 0), (1, 0), (0, 1), (1, 0), (1, 1), (0, 1)][j]
  }

  function Corner(k: Corners, o: (int, int)): Vec3 {
    if o == (0, 0) then k.bottomLeft
    else if o == (1, 0) then k.bottomRight
    else if o == (0, 1) then k.topLeft
    else k.topRight
  }

  lemma CellPositionsAreCorners(k: Corners, flip: bool, j: int)
    requires 0 <= j < 6
    ensures CellPositions(k, flip)[j] == Corner(k, CornerOffset(flip, j))
  {
  }

  /** `(b - a).cross(c - a).getNormalized()`. */
  function FaceNormal(sqrt: real -> real, a: Vec3, b: Vec3, c: Vec3): Vec3
    requires IsSqrt(sqrt) && b.Minus(a).Cross(c.Minus(a)).z > 0.0
  {
    UpwardNonzero(b.Minus(a).Cross(c.Minus(a)));
    Normalized(sqrt, b.Minus(a).Cross(c.Minus(a)))
  }

  lemma UpwardNonzero(v: Vec3)
    requires v.z > 0.0
    ensures v.SquaredLength() > 0.0
  {
    // Scaling by 1/z keeps the argument away from a bare `z * z > 0`.
    var t := 1.0 / v.z;
    SquareNonnegative(v.x);
    SquareNonnegative(v.y);
    ScaledSquare(v.SquaredLength(), v.z, t);
    PositiveFactor(v.SquaredLength(), t * t);
  }

  lemma ScaledSquare(s: real, z: real, t: real)
    requires z * t == 1.0 && s >= z * z && t > 0.0
    ensures s * (t * t) >= 1.0
  {
    assert (z * z) * (t * t) == (z * t) * (z * t);
  }

  lemma SquareNonnegative(a: real)
    ensures a * a >= 0.0
  {
    if a < 0.0 {
      assert a * a == (-a) * (-a);
    }
  }

  /** A vector with positive z normalises to a unit vector with positive z. */
  lemma NormalizedUpward(sqrt: real -> real, v: Vec3)
    requires IsSqrt(sqrt) && v.z > 0.0 && v.SquaredLength() > 0.0
    ensures Normalized(sqrt, v).z > 0.0 && Normalized(sqrt, v).SquaredLength() == 1.0
  {
    SqrtPositive(sqrt, v.SquaredLength());
    NormalizedUnit(sqrt, v);
  }

  /**
   * Each of the four triangles a cell can be split into is counter-clockwise
   * seen from above: its cross product points up, with z = width * height.
   */
  lemma TrianglesFaceUp(k: Corners, w: real, h: real)
    requires Rectangle(k, w, h)
    ensures var bl, br, tl, tr := k.bottomLeft, k.bottomRight, k.topLeft, k.topRight;
      br.Minus(bl).Cross(tr.Minus(bl)).z > 0.0 && tr.Minus(bl).Cross(tl.Minus(bl)).z > 0.0 &&
      br.Minus(bl).Cross(tl.Minus(bl)).z > 0.0 && tr.Minus(br).Cross(tl.Minus(br)).z > 0.0
  {
    assert w * h > 0.0;
  }

  /** The per-vertex normals of a cell: each triangle's face normal on its three vertices. */
  function CellNormals(sqrt: real -> real, k: Corners, flip: bool): (ns: seq<Vec3>)
    requires IsSqrt(sqrt) && Rectangle(k, k.bottomRight.x - k.bottomLeft.x, k.topLeft.y - k.bottomLeft.y)
    ensures |ns| == 6
  {
    TrianglesFaceUp(k, k.bottomRight.x - k.bottomLeft.x, k.topLeft.y - k.bottomLeft.y);
    var bl, br, tl, tr := k.bottomLeft, k.bottomRight, k.topLeft, k.topRight;
    if flip then
      var n1 := FaceNormal(sqrt, bl, br, tr);
      var n2 := FaceNormal(sqrt, bl, tr, tl);
      [n1, n1, n1, n2, n2, n2]
    else
      var n1 := FaceNormal(sqrt, bl, br, tl);
      var n2 := FaceNormal(sqrt, br, tr, tl);
      [n1, n1, n1, n2, n2, n2]
  }

  /** Every normal of a cell is a unit vector pointing up. */
  lemma CellNormalsUnitUpward(sqrt: real -> real, k: Corners, flip: bool)
    requires IsSqrt(sqrt) && Rectangle(k, k.bottomRight.x - k.bottomLeft.x, k.topLeft.y - k.bottomLeft.y)
    ensures forall j :: 0 <= j < 6 ==>
      CellNormals(sqrt, k, flip)[j].z > 0.0 && CellNormals(sqrt, k, flip)[j].SquaredLength() == 1.0
  {
    var bl, br, tl, tr := k.bottomLeft, k.bottomRight, k.topLeft, k.topRight;
    TrianglesFaceUp(k, br.x - bl.x, tl.y - bl.y);
    UpwardNonzero(br.Minus(bl).Cross(tr.Minus(bl)));
    NormalizedUpward(sqrt, br.Minus(bl).Cross(tr.Minus(bl)));
    UpwardNonzero(tr.Minus(bl).Cross(tl.Minus(bl)));
    NormalizedUpward(sqrt, tr.Minus(bl).Cross(tl.Minus(bl)));
    UpwardNonzero(br.Minus(bl).Cross(tl.Minus(bl)));
    NormalizedUpward(sqrt, br.Minus(bl).Cross(tl.Minus(bl)));
    UpwardNonzero(tr.Minus(br).Cross(tl.Minus(br)));
    NormalizedUpward(sqrt, tr.Minus(br).Cross(tl.Minus(br)));
  }

  /** The six vertices `generateGeometry` appends for cell `(x, y)`. */
  function CellVertices(sqrt: real -> real, d: Dims, hs: Heights, maxHeight: real, x: int, y: int, flip: bool): (vs: seq<Vertex>)
    requires IsSqrt(sqrt) && d.Valid() && Shaped(d, hs) && maxHeight > 0.0
    requires 0 <= x < d.segmentsX && 0 <= y < d.segmentsY
    ensures |vs| == 6
  {
    var k := CellCorners(d, hs, x, y);
    CellCornersOnGrid(d, hs, x, y);
    var ps := CellPositions(k, flip);
    var ns := CellNormals(sqrt, k, flip);
    var color := CellColor(d, hs, maxHeight, x, y);
    [Vertex(ps[0], ns[0], Vec2(0.0, 0.0), color), Vertex(ps[1], ns[1], Vec2(0.0, 0.0), color),
     Vertex(ps[2], ns[2], Vec2(0.0, 0.0), color), Vertex(ps[3], ns[3], Vec2(0.0, 0.0), color),
     Vertex(ps[4], ns[4], Vec2(0.0, 0.0), color), Vertex(ps[5], ns[5], Vec2(0.0, 0.0), color)]
  }

  // ---------------------------------------------------------------------
  // The whole mesh

  /** The cell that vertex `i` belongs to. */
  function VertexCell(d: Dims, i: int): (int, int)
    requires d.Valid()
  {
    (CellX(d, i / 6), CellY(d, i / 6))
  }

  /** Vertex `i` of the mesh built from `hs`, with `flips[c]` the diagonal chosen for cell `c`. */
  function BuiltVertex(sqrt: real -> real, d: Dims, hs: Heights, maxHeight: real, flips: seq<bool>, i: int): Vertex
    requires IsSqrt(sqrt) && d.Valid() && Shaped(d, hs) && maxHeight > 0.0
    requires |flips| == CellCount(d) && 0 <= i < 6 * CellCount(d)
  {
    var c := i / 6;
    CellNumberRoundTrip(d, c);
    CellVertices(sqrt, d, hs, maxHeight, CellX(d, c), CellY(d, c), flips[c])[i % 6]
  }

  /** The first `n` cells' worth of vertices, in generation order. */
  function BuiltVertices(sqrt: real -> real, d: Dims, hs: Heights, maxHeight: real, flips: seq<bool>, n: int): (vs: seq<Vertex>)
    requires IsSqrt(sqrt) && d.Valid() && Shaped(d, hs) && maxHeight > 0.0
    requires |flips| == CellCount(d) && 0 <= n <= CellCount(d)
    ensures |vs| == 6 * n
  {
    seq(6 * n, i requires 0 <= i < 6 * n => BuiltVertex(sqrt, d, hs, maxHeight, flips, i))
  }

  /** The first `n` cells' worth of triangles: triangle `t` is vertices `3t, 3t+1, 3t+2`. */
  function BuiltTriangles(n: int): (ts: seq<Triangle>)
    requires n >= 0
    ensures |ts| == 2 * n
  {
    seq(2 * n, t requires 0 <= t < 2 * n => Triangle(3 * t, 3 * t + 1, 3 * t + 2))
  }

  /** Appending one cell to the vertices built so far. */
  lemma {:induction false} BuiltVerticesStep(sqrt: real -> real, d: Dims, hs: Heights, maxHeight: real, flips: seq<bool>, x: int, y: int)
    requires IsSqrt(sqrt) && d.Valid() && Shaped(d, hs) && maxHeight > 0.0 && |flips| == CellCount(d)
    requires 0 <= x < d.segmentsX && 0 <= y < d.segmentsY
    ensures var c := CellIndex(d, x, y);
      0 <= c < CellCount(d) &&
      BuiltVertices(sqrt, d, hs, maxHeight, flips, c + 1) ==
      BuiltVertices(sqrt, d, hs, maxHeight, flips, c) + CellVertices(sqrt, d, hs, maxHeight, x, y, flips[c])
  {
    var c := CellIndex(d, x, y);
    CellIndexRoundTrip(d, x, y);
    var prev, next := BuiltVertices(sqrt, d, hs, maxHeight, flips, c), BuiltVertices(sqrt, d, hs, maxHeight, flips, c + 1);
    var block := CellVertices(sqrt, d, hs, maxHeight, x, y, flips[c]);
    forall i | 0 <= i < 6 * (c + 1) ensures next[i] == (prev + block)[i] {
      if i >= 6 * c {
        assert i / 6 == c && i % 6 == i - 6 * c;
      }
    }
  }

  lemma BuiltTrianglesStep(n: int)
    requires n >= 0
    ensures BuiltTriangles(n + 1) ==
      BuiltTriangles(n) + [Triangle(6 * n, 6 * n + 1, 6 * n + 2), Triangle(6 * n + 3, 6 * n + 4, 6 * n + 5)]
  {
  }

  /**
   * Each triangle of the built mesh is made of three vertices of one cell,
   * in range of the vertex array.
   */
  lemma TrianglesWithinOneCell(d: Dims, t: int)
    requires d.Valid() && 0 <= t < 2 * CellCount(d)
    ensures var tri := BuiltTriangles(CellCount(d))[t];
      0 <= tri.a && tri.c < 6 * CellCount(d) && tri.b == tri.a + 1 && tri.c == tri.a + 2 &&
      tri.a / 6 == t / 2 && tri.b / 6 == t / 2 && tri.c / 6 == t / 2
  {
  }

  /**
   * Every vertex of the built mesh sits on a grid vertex of its own cell, at
   * that vertex's height; its normal is a unit vector pointing up; its
   * colour is its cell's colour.
   */
  lemma BuiltVertexOnGrid(sqrt: real -> real, d: Dims, hs: Heights, maxHeight: real, flips: seq<bool>, i: int)
    requires IsSqrt(sqrt) && d.Valid() && Shaped(d, hs) && maxHeight > 0.0
    requires |flips| == CellCount(d) && 0 <= i < 6 * CellCount(d)
    ensures var c := i / 6;
      var (x, y) := VertexCell(d, i);
      var o := CornerOffset(flips[c], i % 6);
      var v := BuiltVertex(sqrt, d, hs, maxHeight, flips, i);
      0 <= x < d.segmentsX && 0 <= y < d.segmentsY &&
      v.position == GridPoint(d, hs, x + o.0, y + o.1) &&
      v.normal.z > 0.0 && v.normal.SquaredLength() == 1.0 &&
      v.color == CellColor(d, hs, maxHeight, x, y)
  {
    var c := i / 6;
    CellNumberRoundTrip(d, c);
    var x, y := CellX(d, c), CellY(d, c);
    var k := CellCorners(d, hs, x, y);
    CellCornersOnGrid(d, hs, x, y);
    CellPositionsAreCorners(k, flips[c], i % 6);
    CellNormalsUnitUpward(sqrt, k, flips[c]);
  }

  // ---------------------------------------------------------------------
  // Patching the mesh after a brush stroke

  /**
   * `updateVertexZ`: the new z of `pos` is the height of the first corner
   * that lies within `Eps` of it in both x and y, trying bottom-left,
   * bottom-right, top-left, top-right in turn; `pos.z` when none does.
   */
  function MatchedZ(pos: Vec3, x0: real, x1: real, y0: real, y1: real,
                    h1: real, h2: real, h3: real, h4: real): real
  {
    if Abs(pos.x - x0) < Eps && Abs(pos.y - y0) < Eps then h1
    else if Abs(pos.x - x1) < Eps && Abs(pos.y - y0) < Eps then h2
    else if Abs(pos.x - x0) < Eps && Abs(pos.y - y1) < Eps then h3
    else if Abs(pos.x - x1) < Eps && Abs(pos.y - y1) < Eps then h4
    else pos.z
  }

  /** `MatchedZ` with the arguments `updateVerticesForCells` passes for a cell. */
  function CornerZ(pos: Vec3, k: Corners): real {
    MatchedZ(pos, k.bottomLeft.x, k.bottomRight.x, k.bottomLeft.y, k.topLeft.y,
             k.bottomLeft.z, k.bottomRight.z, k.topLeft.z, k.topRight.z)
  }

  /**
   * In a cell at least `Eps` wide and high, a vertex lying on a corner's XY
   * position gets exactly that corner's height.
   */
  lemma CornerZAtCorner(k: Corners, w: real, h: real, o: (int, int), z: real)
    requires Rectangle(k, w, h) && w >= Eps && h >= Eps
    requires 0 <= o.0 <= 1 && 0 <= o.1 <= 1
    ensures var p := Corner(k, o); CornerZ(Vec3(p.x, p.y, z), k) == p.z
  {
  }

  /**
   * A cell narrower than `Eps` in both directions breaks the matching: the
   * top-right vertex is taken for the bottom-left one and given its height.
   */
  lemma TinyCellTakesWrongCorner(k: Corners, w: real, h: real, z: real)
    requires Rectangle(k, w, h) && w < Eps && h < Eps
    ensures CornerZ(Vec3(k.topRight.x, k.topRight.y, z), k) == k.bottomLeft.z
  {
  }

  /**
   * Vertex `j` (0 to 5) of a cell after the cell is patched: the first two
   * are set to the bottom-left and bottom-right corners outright, the other
   * four keep their XY and take the height `updateVertexZ` matches; all six
   * take the cell's colour.
   */
  function PatchCorner(k: Corners, color: Color, v: Vertex, j: int): (r: Vertex)
    ensures r.normal == v.normal && r.uv == v.uv && r.color == color
  {
    var p := if j == 0 then k.bottomLeft
             else if j == 1 then k.bottomRight
             else Vec3(v.position.x, v.position.y, CornerZ(v.position, k));
    v.(position := p, color := color)
  }

  /** Vertex `i` after `updateVerticesForCells(cells)` with the grid `hs`. */
  function PatchedVertex(d: Dims, hs: Heights, maxHeight: real, vs: seq<Vertex>, cells: set<(int, int)>, i: int): Vertex
    requires d.Valid() && Shaped(d, hs) && maxHeight > 0.0
    requires |vs| == 6 * CellCount(d) && 0 <= i < |vs|
  {
    var c := i / 6;
    CellNumberRoundTrip(d, c);
    var (x, y) := VertexCell(d, i);
    if (x, y) in cells then PatchCorner(CellCorners(d, hs, x, y), CellColor(d, hs, maxHeight, x, y), vs[i], i % 6)
    else vs[i]
  }

  function PatchedVertices(d: Dims, hs: Heights, maxHeight: real, vs: seq<Vertex>, cells: set<(int, int)>): (r: seq<Vertex>)
    requires d.Valid() && Shaped(d, hs) && maxHeight > 0.0 && |vs| == 6 * CellCount(d)
    ensures |r| == |vs|
  {
    seq(|vs|, i requires 0 <= i < |vs| => PatchedVertex(d, hs, maxHeight, vs, cells, i))
  }

  /**
   * The mesh `vs` shows the grid `hs` with diagonals `flips`: every vertex
   * has the position and colour `generateGeometry` gives it and a zero uv.
   * Normals are left out, since the patch never recomputes them.
   */
  ghost predicate Shows(d: Dims, hs: Heights, maxHeight: real, flips: seq<bool>, vs: seq<Vertex>)
    requires d.Valid() && Shaped(d, hs) && maxHeight > 0.0 && |flips| == CellCount(d)
  {
    |vs| == 6 * CellCount(d) &&
    forall i :: 0 <= i < |vs| ==>
      var c := i / 6;
      0 <= c < CellCount(d) && 0 <= CellX(d, c) < d.segmentsX && 0 <= CellY(d, c) < d.segmentsY &&
      vs[i].position == CellPositions(CellCorners(d, hs, CellX(d, c), CellY(d, c)), flips[c])[i % 6] &&
      vs[i].color == CellColor(d, hs, maxHeight, CellX(d, c), CellY(d, c)) &&
      vs[i].uv == Vec2(0.0, 0.0)
  }

  /** The freshly built mesh shows the grid it was built from. */
  lemma BuiltShows(sqrt: real -> real, d: Dims, hs: Heights, maxHeight: real, flips: seq<bool>)
    requires IsSqrt(sqrt) && d.Valid() && Shaped(d, hs) && maxHeight > 0.0 && |flips| == CellCount(d)
    ensures Shows(d, hs, maxHeight, flips, BuiltVertices(sqrt, d, hs, maxHeight, flips, CellCount(d)))
  {
    var vs := BuiltVertices(sqrt, d, hs, maxHeight, flips, CellCount(d));
    forall i | 0 <= i < |vs|
      ensures var c := i / 6;
        0 <= c < CellCount(d) && 0 <= CellX(d, c) < d.segmentsX && 0 <= CellY(d, c) < d.segmentsY &&
        vs[i].position == CellPositions(CellCorners(d, hs, CellX(d, c), CellY(d, c)), flips[c])[i % 6] &&
        vs[i].color == CellColor(d, hs, maxHeight, CellX(d, c), CellY(d, c)) &&
        vs[i].uv == Vec2(0.0, 0.0)
    {
      CellNumberRoundTrip(d, i / 6);
    }
  }

  /** The cells outside `cells` have the same corner heights in `hs` and `hs2`. */
  ghost predicate ChangesWithin(d: Dims, hs: Heights, hs2: Heights, cells: set<(int, int)>)
    requires d.Valid() && Shaped(d, hs) && Shaped(d, hs2)
  {
    forall x, y :: 0 <= x < d.segmentsX && 0 <= y < d.segmentsY && (x, y) !in cells ==>
      CellCorners(d, hs, x, y) == CellCorners(d, hs2, x, y)
  }

  /**
   * The patch brings the mesh back in line with the heights: if the mesh
   * shows `hs`, and `hs2` differs from `hs` only at corners of the listed
   * cells, then patching those cells with `hs2` gives a mesh that shows
   * `hs2`, with every normal kept. This needs cells at least `Eps` wide and
   * high (see `TinyCellTakesWrongCorner`).
   */
  lemma PatchRestoresMesh(d: Dims, hs: Heights, hs2: Heights, maxHeight: real, flips: seq<bool>,
                          vs: seq<Vertex>, cells: set<(int, int)>)
    requires d.Valid() && Shaped(d, hs) && Shaped(d, hs2) && maxHeight > 0.0 && |flips| == CellCount(d)
    requires d.CellWidth() >= Eps && d.CellHeight() >= Eps
    requires Shows(d, hs, maxHeight, flips, vs) && ChangesWithin(d, hs, hs2, cells)
    ensures var r := PatchedVertices(d, hs2, maxHeight, vs, cells);
      Shows(d, hs2, maxHeight, flips, r) && forall i :: 0 <= i < |r| ==> r[i].normal == vs[i].normal
  {
    var r := PatchedVertices(d, hs2, maxHeight, vs, cells);
    forall i | 0 <= i < |r|
      ensures var c := i / 6;
        0 <= c < CellCount(d) && 0 <= CellX(d, c) < d.segmentsX && 0 <= CellY(d, c) < d.segmentsY &&
        r[i].position == CellPositions(CellCorners(d, hs2, CellX(d, c), CellY(d, c)), flips[c])[i % 6] &&
        r[i].color == CellColor(d, hs2, maxHeight, CellX(d, c), CellY(d, c)) &&
        r[i].uv == Vec2(0.0, 0.0) && r[i].normal == vs[i].normal
    {
      PatchedVertexShows(d, hs, hs2, maxHeight, flips, vs, cells, i);
    }
  }

  lemma PatchedVertexShows(d: Dims, hs: Heights, hs2: Heights, maxHeight: real, flips: seq<bool>,
                           vs: seq<Vertex>, cells: set<(int, int)>, i: int)
    requires d.Valid() && Shaped(d, hs) && Shaped(d, hs2) && maxHeight > 0.0 && |flips| == CellCount(d)
    requires d.CellWidth() >= Eps && d.CellHeight() >= Eps
    requires Shows(d, hs, maxHeight, flips, vs) && ChangesWithin(d, hs, hs2, cells)
    requires 0 <= i < |vs|
    ensures var c := i / 6;
      var v := PatchedVertex(d, hs2, maxHeight, vs, cells, i);
      0 <= c < CellCount(d) && 0 <= CellX(d, c) < d.segmentsX && 0 <= CellY(d, c) < d.segmentsY &&
      v.position == CellPositions(CellCorners(d, hs2, CellX(d, c), CellY(d, c)), flips[c])[i % 6] &&
      v.color == CellColor(d, hs2, maxHeight, CellX(d, c), CellY(d, c)) &&
      v.uv == Vec2(0.0, 0.0) && v.normal == vs[i].normal
  {
    var c := i / 6;
    CellNumberRoundTrip(d, c);
    var x, y := CellX(d, c), CellY(d, c);
    if (x, y) in cells {
      var k1, k2 := CellCorners(d, hs, x, y), CellCorners(d, hs2, x, y);
      CellCornersOnGrid(d, hs, x, y);
      CellCornersOnGrid(d, hs2, x, y);
      var j := i % 6;
      var o := CornerOffset(flips[c], j);
      CellPositionsAreCorners(k1, flips[c], j);
      CellPositionsAreCorners(k2, flips[c], j);
      if j >= 2 {
        CornerZAtCorner(k2, d.CellWidth(), d.CellHeight(), o, vs[i].position.z);
      }
    }
  }

  /** Patching the same cells twice is patching them once. */
  lemma PatchIdempotent(d: Dims, hs: Heights, maxHeight: real, vs: seq<Vertex>, cells: set<(int, int)>)
    requires d.Valid() && Shaped(d, hs) && maxHeight > 0.0 && |vs| == 6 * CellCount(d)
    ensures var once := PatchedVertices(d, hs, maxHeight, vs, cells);
      PatchedVertices(d, hs, maxHeight, once, cells) == once
  {
    var once := PatchedVertices(d, hs, maxHeight, vs, cells);
    var twice := PatchedVertices(d, hs, maxHeight, once, cells);
    forall i | 0 <= i < |vs| ensures twice[i] == once[i] {
      CellNumberRoundTrip(d, i / 6);
      var (x, y) := VertexCell(d, i);
      if (x, y) in cells && i % 6 >= 2 {
        CornerZStable(once[i].position, vs[i].position, CellCorners(d, hs, x, y));
      }
    }
  }

  /** Patching no cells leaves the mesh as it is. */
  lemma PatchNothing(d: Dims, hs: Heights, maxHeight: real, vs: seq<Vertex>)
    requires d.Valid() && Shaped(d, hs) && maxHeight > 0.0 && |vs| == 6 * CellCount(d)
    ensures PatchedVertices(d, hs, maxHeight, vs, {}) == vs
  {
    var r := PatchedVertices(d, hs, maxHeight, vs, {});
    forall i | 0 <= i < |vs| ensures r[i] == vs[i] {
    }
  }

  /**
   * Cells are patched one at a time and each touches only its own six
   * vertices, so patching one more cell extends the patch of the others,
   * whatever the order the cells come in.
   */
  lemma PatchOneMore(d: Dims, hs: Heights, maxHeight: real, vs: seq<Vertex>, done: set<(int, int)>, c: (int, int))
    requires d.Valid() && Shaped(d, hs) && maxHeight > 0.0 && |vs| == 6 * CellCount(d) && c !in done
    ensures PatchedVertices(d, hs, maxHeight, vs, done + {c}) ==
            PatchedVertices(d, hs, maxHeight, PatchedVertices(d, hs, maxHeight, vs, done), {c})
  {
    var lhs := PatchedVertices(d, hs, maxHeight, vs, done + {c});
    var mid := PatchedVertices(d, hs, maxHeight, vs, done);
    var rhs := PatchedVertices(d, hs, maxHeight, mid, {c});
    forall i | 0 <= i < |vs| ensures lhs[i] == rhs[i] {
      CellNumberRoundTrip(d, i / 6);
    }
  }

  /**
   * The six writes `updateVerticesForCells` makes for cell `(x, y)`: every
   * vertex of the cell becomes its `PatchCorner`, every other vertex stays.
   * That is patching the one cell.
   */
  lemma CellWrites(d: Dims, hs: Heights, maxHeight: real, before: seq<Vertex>, after: seq<Vertex>, x: int, y: int)
    requires d.Valid() && Shaped(d, hs) && maxHeight > 0.0 && |before| == 6 * CellCount(d)
    requires 0 <= x < d.segmentsX && 0 <= y < d.segmentsY && |after| == |before|
    requires var first := 6 * CellIndex(d, x, y);
      var k, color := CellCorners(d, hs, x, y), CellColor(d, hs, maxHeight, x, y);
      forall i :: 0 <= i < |after| ==>
        after[i] == if first <= i < first + 6 then PatchCorner(k, color, before[i], i - first) else before[i]
    ensures after == PatchedVertices(d, hs, maxHeight, before, {(x, y)})
  {
    var first := 6 * CellIndex(d, x, y);
    CellIndexRoundTrip(d, x, y);
    var r := PatchedVertices(d, hs, maxHeight, before, {(x, y)});
    forall i | 0 <= i < |after| ensures after[i] == r[i] {
      var c := i / 6;
      CellNumberRoundTrip(d, c);
      if first <= i < first + 6 {
        assert c == CellIndex(d, x, y) && i % 6 == i - first;
      } else {
        assert c != CellIndex(d, x, y);
      }
    }
  }

  /**
   * `placed` is `before` with the six vertices from `first` on moved onto
   * the cell with corners `k`: the first two onto the bottom corners, the
   * other four keep their XY and take the height `CornerZ` matches.
   */
  ghost predicate BlockPlaced(k: Corners, before: seq<Vertex>, placed: seq<Vertex>, first: int) {
    && 0 <= first && first + 6 <= |before| && |placed| == |before|
    && (forall j :: 0 <= j < |before| && !(first <= j < first + 6) ==> placed[j] == before[j])
    && placed[first] == before[first].(position := k.bottomLeft)
    && placed[first + 1] == before[first + 1].(position := k.bottomRight)
    && forall j :: first + 2 <= j < first + 6 ==> placed[j] == before[j].(position :=
         Vec3(before[j].position.x, before[j].position.y, CornerZ(before[j].position, k)))
  }

  /** Placing the six vertices of a block and then colouring them patches the block. */
  lemma BlockPatched(k: Corners, color: Color, before: seq<Vertex>, placed: seq<Vertex>, after: seq<Vertex>, first: int)
    requires BlockPlaced(k, before, placed, first) && |after| == |before|
    requires forall j :: 0 <= j < |after| ==>
      after[j] == if first <= j < first + 6 then placed[j].(color := color) else placed[j]
    ensures forall j :: 0 <= j < |after| ==>
      after[j] == if first <= j < first + 6 then PatchCorner(k, color, before[j], j - first) else before[j]
  {
  }

  /** The matched height depends only on XY, unless no corner matches. */
  lemma CornerZStable(p: Vec3, q: Vec3, k: Corners)
    requires p == Vec3(q.x, q.y, CornerZ(q, k))
    ensures CornerZ(p, k) == p.z
  {
  }

  /**
   * A brush stroke changes heights only at corners of the cells it reports,
   * so patching exactly those cells restores the mesh.
   */
  lemma BrushChangesWithinCells(sqrt: real -> real, d: Dims, hs: Heights, point: Vec3, radius: real, update: Vec3 -> real)
    requires IsSqrt(sqrt) && d.Valid() && Shaped(d, hs)
    ensures ChangesWithin(d, hs, BrushedHeights(sqrt, d, hs, point, radius, update), BrushedCells(sqrt, d, point, radius))
  {
    var hs2 := BrushedHeights(sqrt, d, hs, point, radius, update);
    var cells := BrushedCells(sqrt, d, point, radius);
    forall x, y | 0 <= x < d.segmentsX && 0 <= y < d.segmentsY && (x, y) !in cells
      ensures CellCorners(d, hs, x, y) == CellCorners(d, hs2, x, y)
    {
      assert !Touched(sqrt, d, point, radius, x, y) && !Touched(sqrt, d, point, radius, x + 1, y) &&
             !Touched(sqrt, d, point, radius, x, y + 1) && !Touched(sqrt, d, point, radius, x + 1, y + 1);
    }
  }
}
