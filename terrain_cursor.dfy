// The ring that marks the brush under the mouse (TerrainCursorModel): a flat
// annulus of `segments` quads between radius `radius - width` and `radius`,
// built once, and the setters that move and turn it.
//
// `Math.cos`, `Math.sin` and `Math.PI` are parameters; the quaternion that
// turns the ring towards a surface normal is not modelled.

module TerrainCursor {
  import opened Geometry

  /** The vertex and index lists of a `VertexArray3D`. */
  datatype VertexArray = VertexArray(vertices: seq<Vertex>, triangles: seq<Triangle>)

  /** Angle at which segment boundary `i` of `segments` lies: `(i / segments) * 2 pi`. */
  function BoundaryAngle(pi: real, i: int, segments: int): real
    requires segments > 0
  {
    (i as real / segments as real) * pi * 2.0
  }

  /** A ring point at `angle` on the circle of radius `r`, in the z = 0 plane. */
  function RingPoint(cos: real -> real, sin: real -> real, angle: real, r: real): Vec3 {
    Vec3(cos(angle) * r, sin(angle) * r, 0.0)
  }

  /**
   * Corner `j` of segment `s`: the segment spans boundary angles `s` (start)
   * and `s + 1` (end); its corners are the inner point at the end angle, the
   * inner point at the start angle, the outer point at the start angle and
   * the outer point at the end angle. All face +Z with uv (0, 0).
   */
  function RingCorner(cos: real -> real, sin: real -> real, pi: real, radius: real, width: real,
                      segments: int, color: Color, s: int, j: int): Vertex
    requires segments > 0
  {
    var angle := BoundaryAngle(pi, if j == 0 || j == 3 then s + 1 else s, segments);
    var r := if j < 2 then radius - width else radius;
    Vertex(RingPoint(cos, sin, angle, r), UnitZ, Vec2(0.0, 0.0), color)
  }

  /** Triangle `j` of segment `s`: the segment's quad split along its 0-2 diagonal. */
  function RingTriangle(s: int, j: int): Triangle {
    if j == 0 then Triangle(4 * s, 4 * s + 1, 4 * s + 2) else Triangle(4 * s, 4 * s + 2, 4 * s + 3)
  }

  /** The first `n` segments of the ring: vertex `4s + j` is corner `j` of segment `s`. */
  ghost predicate RingVertices(cos: real -> real, sin: real -> real, pi: real, radius: real, width: real,
                               segments: int, color: Color, n: int, vertices: seq<Vertex>)
    requires segments > 0
  {
    && |vertices| == 4 * n
    && forall s, j :: 0 <= s < n && 0 <= j < 4 ==>
         vertices[4 * s + j] == RingCorner(cos, sin, pi, radius, width, segments, color, s, j)
  }

  /** The first `n` segments' triangles: triangle `2s + j` is triangle `j` of segment `s`. */
  ghost predicate RingTriangles(n: int, triangles: seq<Triangle>) {
    && |triangles| == 2 * n
    && forall s, j :: 0 <= s < n && 0 <= j < 2 ==> triangles[2 * s + j] == RingTriangle(s, j)
  }

  /**
   * `CreateCircle`: `4n` vertices and `2n` triangles for `n` segments (none
   * for `n <= 0`), laid out as `RingVertices` and `RingTriangles` say.
   */
  method CreateCircle(cos: real -> real, sin: real -> real, pi: real,
                      radius: real, width: real, segments: int, color: Color) returns (verts: VertexArray)
    ensures segments <= 0 ==> verts == VertexArray([], [])
    ensures segments > 0 ==>
      && RingVertices(cos, sin, pi, radius, width, segments, color, segments, verts.vertices)
      && RingTriangles(segments, verts.triangles)
  {
    var vertices: seq<Vertex> := [];
    var triangles: seq<Triangle> := [];
    if segments <= 0 {
      return VertexArray(vertices, triangles);
    }
    var prevAngle := 0.0;
    var i := 1;
    assert BoundaryAngle(pi, 0, segments) == 0.0;
    while i <= segments
      invariant 1 <= i <= segments + 1
      invariant prevAngle == BoundaryAngle(pi, i - 1, segments)
      invariant RingVertices(cos, sin, pi, radius, width, segments, color, i - 1, vertices)
      invariant RingTriangles(i - 1, triangles)
    {
      var angle := BoundaryAngle(pi, i, segments);
      assert BoundaryAngle(pi, i - 1 + 1, segments) == angle;
      vertices := AppendSegmentVertices(cos, sin, pi, radius, width, segments, color, i - 1,
                                        prevAngle, angle, vertices);
      triangles := AppendSegmentTriangles(i - 1, triangles);
      prevAngle := angle;
      i := i + 1;
    }
    return VertexArray(vertices, triangles);
  }

  /**
   * The vertex half of one loop step of `CreateCircle`: the four corners of
   * segment `s`, between the angles `prevAngle` and `angle`, in the order the
   * loop pushes them.
   */
  method AppendSegmentVertices(cos: real -> real, sin: real -> real, pi: real, radius: real, width: real,
                               segments: int, color: Color, s: int, prevAngle: real, angle: real,
                               vertices: seq<Vertex>) returns (after: seq<Vertex>)
    requires segments > 0 && s >= 0
    requires prevAngle == BoundaryAngle(pi, s, segments) && angle == BoundaryAngle(pi, s + 1, segments)
    requires RingVertices(cos, sin, pi, radius, width, segments, color, s, vertices)
    ensures RingVertices(cos, sin, pi, radius, width, segments, color, s + 1, after)
  {
    var innerRadius := radius - width;
    var up, uv := UnitZ, Vec2(0.0, 0.0);
    var v0 := Vertex(Vec3(cos(angle) * innerRadius, sin(angle) * innerRadius, 0.0), up, uv, color);
    var v1 := Vertex(Vec3(cos(prevAngle) * innerRadius, sin(prevAngle) * innerRadius, 0.0), up, uv, color);
    var v2 := Vertex(Vec3(cos(prevAngle) * radius, sin(prevAngle) * radius, 0.0), up, uv, color);
    var v3 := Vertex(Vec3(cos(angle) * radius, sin(angle) * radius, 0.0), up, uv, color);
    assert v0 == RingCorner(cos, sin, pi, radius, width, segments, color, s, 0);
    assert v1 == RingCorner(cos, sin, pi, radius, width, segments, color, s, 1);
    assert v2 == RingCorner(cos, sin, pi, radius, width, segments, color, s, 2);
    assert v3 == RingCorner(cos, sin, pi, radius, width, segments, color, s, 3);
    after := vertices + [v0] + [v1] + [v2] + [v3];
    SegmentAppended(cos, sin, pi, radius, width, segments, color, s, vertices, after);
  }

  /** The triangle half of one loop step of `CreateCircle`: segment `s`'s two triangles. */
  method AppendSegmentTriangles(s: int, triangles: seq<Triangle>) returns (after: seq<Triangle>)
    requires s >= 0 && RingTriangles(s, triangles)
    ensures RingTriangles(s + 1, after)
  {
    after := triangles + [Triangle(4 * s, 4 * s + 1, 4 * s + 2)] + [Triangle(4 * s, 4 * s + 2, 4 * s + 3)];
    TrianglesAppended(s, triangles, after);
  }

  /** One loop step of `CreateCircle` appends segment `s`'s corners in order. */
  lemma SegmentAppended(cos: real -> real, sin: real -> real, pi: real, radius: real, width: real,
                        segments: int, color: Color, s: int, before: seq<Vertex>, after: seq<Vertex>)
    requires segments > 0 && s >= 0
    requires RingVertices(cos, sin, pi, radius, width, segments, color, s, before)
    requires after == before + [RingCorner(cos, sin, pi, radius, width, segments, color, s, 0)]
                             + [RingCorner(cos, sin, pi, radius, width, segments, color, s, 1)]
                             + [RingCorner(cos, sin, pi, radius, width, segments, color, s, 2)]
                             + [RingCorner(cos, sin, pi, radius, width, segments, color, s, 3)]
    ensures RingVertices(cos, sin, pi, radius, width, segments, color, s + 1, after)
  {
  }

  /** One loop step of `CreateCircle` appends segment `s`'s two triangles. */
  lemma TrianglesAppended(s: int, before: seq<Triangle>, after: seq<Triangle>)
    requires s >= 0 && RingTriangles(s, before)
    requires after == before + [RingTriangle(s, 0)] + [RingTriangle(s, 1)]
    ensures RingTriangles(s + 1, after)
  {
  }

  /** Every triangle of a ring of `n` segments indexes one of its `4n` vertices. */
  lemma RingIndicesInRange(n: int, triangles: seq<Triangle>)
    requires n >= 0 && RingTriangles(n, triangles)
    ensures forall t :: 0 <= t < |triangles| ==>
      0 <= triangles[t].a < 4 * n && 0 <= triangles[t].b < 4 * n && 0 <= triangles[t].c < 4 * n
  {
    forall t | 0 <= t < |triangles|
      ensures 0 <= triangles[t].a < 4 * n && 0 <= triangles[t].b < 4 * n && 0 <= triangles[t].c < 4 * n
    {
      var s, j := t / 2, t % 2;
      assert triangles[2 * s + j] == RingTriangle(s, j);
    }
  }

  /** Every ring vertex lies in the z = 0 plane, faces +Z, has uv (0, 0) and the ring's colour. */
  lemma RingVertexAttributes(cos: real -> real, sin: real -> real, pi: real, radius: real, width: real,
                             segments: int, color: Color, n: int, vertices: seq<Vertex>)
    requires segments > 0 && n >= 0
    requires RingVertices(cos, sin, pi, radius, width, segments, color, n, vertices)
    ensures forall k :: 0 <= k < |vertices| ==>
      vertices[k].position.z == 0.0 && vertices[k].normal == UnitZ && vertices[k].uv == Vec2(0.0, 0.0)
      && vertices[k].color == color
  {
    forall k | 0 <= k < |vertices|
      ensures vertices[k].position.z == 0.0 && vertices[k].normal == UnitZ && vertices[k].uv == Vec2(0.0, 0.0)
        && vertices[k].color == color
    {
      var s, j := k / 4, k % 4;
      assert vertices[4 * s + j] == RingCorner(cos, sin, pi, radius, width, segments, color, s, j);
    }
  }

  /** `cos` and `sin` are the coordinates of a point on the unit circle. */
  ghost predicate OnUnitCircle(cos: real -> real, sin: real -> real) {
    forall a: real :: cos(a) * cos(a) + sin(a) * sin(a) == 1.0
  }

  /**
   * Corners 0 and 1 of every segment lie on the inner circle of radius
   * `radius - width`, corners 2 and 3 on the outer circle of radius `radius`.
   */
  lemma RingCornerRadius(cos: real -> real, sin: real -> real, pi: real, radius: real, width: real,
                         segments: int, color: Color, s: int, j: int)
    requires segments > 0 && OnUnitCircle(cos, sin) && 0 <= j < 4
    ensures var p := RingCorner(cos, sin, pi, radius, width, segments, color, s, j).position;
      var r := if j < 2 then radius - width else radius;
      p.SquaredLengthXY() == r * r
  {
    var angle := BoundaryAngle(pi, if j == 0 || j == 3 then s + 1 else s, segments);
    var r := if j < 2 then radius - width else radius;
    var c, sn := cos(angle), sin(angle);
    assert c * c + sn * sn == 1.0;
    calc {
      (c * r) * (c * r) + (sn * r) * (sn * r);
      (c * c + sn * sn) * (r * r);
      r * r;
    }
  }

  /**
   * The ring closes: the first segment starts at angle 0 and the last one
   * ends at angle 2 pi, the start of the first again; each segment starts
   * where the previous one ended.
   */
  lemma RingCloses(cos: real -> real, sin: real -> real, pi: real, radius: real, width: real,
                   segments: int, color: Color, s: int)
    requires segments > 0 && 0 < s < segments
    ensures RingCorner(cos, sin, pi, radius, width, segments, color, 0, 1).position
         == RingPoint(cos, sin, 0.0, radius - width)
    ensures RingCorner(cos, sin, pi, radius, width, segments, color, segments - 1, 0).position
         == RingPoint(cos, sin, 2.0 * pi, radius - width)
    ensures RingCorner(cos, sin, pi, radius, width, segments, color, s, 1).position
         == RingCorner(cos, sin, pi, radius, width, segments, color, s - 1, 0).position
  {
    assert BoundaryAngle(pi, segments, segments) == 2.0 * pi by {
      assert segments as real / segments as real == 1.0;
    }
  }

  /** The cursor: its ring mesh, where it is and which way it faces. */
  class TerrainCursorModel {
    const circle: VertexArray
    var position: Vec3
    var direction: Vec3
    /** The position held by the node's transform. */
    var transformPosition: Vec3
    /** The uniform scale of the node's transform. */
    var scale: real
    /** The node's visibility flag; a new node model is visible. */
    var visible: bool

    /** A ring of radius 1 and width 0.1 in 32 segments, red, at the origin. */
    constructor (cos: real -> real, sin: real -> real, pi: real)
      ensures RingVertices(cos, sin, pi, 1.0, 0.1, 32, Red, 32, circle.vertices)
      ensures RingTriangles(32, circle.triangles)
      ensures position == Zero3 && direction == Zero3 && transformPosition == Zero3 && visible
    {
      var ring := CreateCircle(cos, sin, pi, 1.0, 0.1, 32, Red);
      circle := ring;
      position := Zero3;
      direction := Zero3;
      transformPosition := Zero3;
      visible := true;
    }

    /** The `position` setter: stores the position and moves the transform there too. */
    method SetPosition(p: Vec3)
      modifies this`position, this`transformPosition
      ensures position == p && transformPosition == p
    {
      position := p;
      transformPosition := p;
    }

    /** The `direction` setter; the rotation it gives the transform is not modelled. */
    method SetDirection(d: Vec3)
      modifies this`direction
      ensures direction == d
    {
      direction := d;
    }
  }
}
