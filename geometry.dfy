// Vectors, colours and the handful of real-number helpers shared by the
// terrain, the particles, the camera and the cursor. Coordinates are exact
// reals; JavaScript's double rounding is not modelled.

module Geometry {

  datatype Vec2 = Vec2(x: real, y: real)

  datatype Vec3 = Vec3(x: real, y: real, z: real) {
    function Plus(o: Vec3): Vec3 { Vec3(x + o.x, y + o.y, z + o.z) }
    function Minus(o: Vec3): Vec3 { Vec3(x - o.x, y - o.y, z - o.z) }
    function Times(k: real): Vec3 { Vec3(x * k, y * k, z * k) }
    function Dot(o: Vec3): real { x * o.x + y * o.y + z * o.z }
    function SquaredLength(): real { x * x + y * y + z * z }
    /** The squared length of the XY part, as `vec.x*vec.x + vec.y*vec.y`. */
    function SquaredLengthXY(): real { x * x + y * y }
    /** The cross product `this x o`. */
    function Cross(o: Vec3): Vec3 {
      Vec3(y * o.z - z * o.y, z * o.x - x * o.z, x * o.y - y * o.x)
    }
  }

  const Zero3 := Vec3(0.0, 0.0, 0.0)
  const UnitZ := Vec3(0.0, 0.0, 1.0)

  /** An RGBA colour with channels in the source's 0..1 float convention. */
  datatype Color = Color(r: real, g: real, b: real, a: real)

  /** `Color.Red()`. */
  const Red := Color(1.0, 0.0, 0.0, 1.0)

  /** One vertex of a `VertexArray3D`: its four parallel attributes. */
  datatype Vertex = Vertex(position: Vec3, normal: Vec3, uv: Vec2, color: Color)

  /** Three indices into a vertex array. */
  datatype Triangle = Triangle(a: int, b: int, c: int)

  /**
   * `sqrt` is an exact square root on the non-negative reals. `Math.sqrt`
   * is a parameter of every operation that measures a distance.
   */
  ghost predicate IsSqrt(sqrt: real -> real) {
    forall s: real :: 0.0 <= s ==> 0.0 <= sqrt(s) && sqrt(s) * sqrt(s) == s
  }

  function Abs(x: real): real { if x < 0.0 then -x else x }

  /** `Math.sign`: -1, 0 or 1. */
  function Sign(x: real): real { if x > 0.0 then 1.0 else if x < 0.0 then -1.0 else 0.0 }

  function Min(a: real, b: real): real { if a <= b then a else b }
  function Max(a: real, b: real): real { if a >= b then a else b }

  /** `Math.ceil` on reals. */
  function Ceil(x: real): int { -((-x).Floor) }

  /** The Euclidean length of a vector through the given square root. */
  function Length(sqrt: real -> real, v: Vec3): real { sqrt(v.SquaredLength()) }

  /** The length of the XY part of a vector, `Math.sqrt(x*x + y*y)`. */
  function LengthXY(sqrt: real -> real, v: Vec3): real { sqrt(v.SquaredLengthXY()) }

  lemma SqrtOfSquare(sqrt: real -> real, s: real)
    requires IsSqrt(sqrt) && 0.0 <= s
    ensures 0.0 <= sqrt(s) && sqrt(s) * sqrt(s) == s
  {
  }

  /** A root of a positive number is positive. */
  lemma SqrtPositive(sqrt: real -> real, s: real)
    requires IsSqrt(sqrt) && 0.0 < s
    ensures 0.0 < sqrt(s)
  {
    SqrtOfSquare(sqrt, s);
  }

  /** The root is the only non-negative number whose square is `s`. */
  lemma SqrtUnique(sqrt: real -> real, s: real, r: real)
    requires IsSqrt(sqrt) && 0.0 <= r && r * r == s
    ensures sqrt(s) == r
  {
    var q := sqrt(s);
    SqrtOfSquare(sqrt, s);
    assert (q - r) * (q + r) == 0.0;
    ProductZero(q - r, q + r);
  }

  lemma ProductZero(a: real, b: real)
    requires a * b == 0.0 && b >= 0.0 && (b == 0.0 ==> a == 0.0)
    ensures a == 0.0
  {
  }

  /** `Math.sqrt` is monotone. */
  lemma SqrtMonotone(sqrt: real -> real, s: real, t: real)
    requires IsSqrt(sqrt) && 0.0 <= s <= t
    ensures sqrt(s) <= sqrt(t)
  {
    SqrtOfSquare(sqrt, s);
    SqrtOfSquare(sqrt, t);
    var p, q := sqrt(s), sqrt(t);
    if p + q > 0.0 {
      assert (q - p) * (q + p) == t - s;
      NonnegativeFactor(q - p, q + p);
    }
  }

  lemma PositiveFactor(a: real, b: real)
    requires a * b > 0.0 && b > 0.0
    ensures a > 0.0
  {
  }

  lemma NonnegativeFactor(a: real, b: real)
    requires a * b >= 0.0 && b > 0.0
    ensures a >= 0.0
  {
  }

  /** Each coordinate of the XY part is bounded by its length. */
  lemma CoordinateBelowLengthXY(sqrt: real -> real, v: Vec3)
    requires IsSqrt(sqrt)
    ensures Abs(v.x) <= LengthXY(sqrt, v) && Abs(v.y) <= LengthXY(sqrt, v)
  {
    var ax, ay := Abs(v.x), Abs(v.y);
    assert ax * ax == v.x * v.x && ay * ay == v.y * v.y;
    SqrtUnique(sqrt, ax * ax, ax);
    SqrtUnique(sqrt, ay * ay, ay);
    SqrtMonotone(sqrt, ax * ax, v.SquaredLengthXY());
    SqrtMonotone(sqrt, ay * ay, v.SquaredLengthXY());
  }

  /** `normal.normalize()`: each coordinate divided by the length, which must not be zero. */
  function Normalized(sqrt: real -> real, n: Vec3): (u: Vec3)
    requires Length(sqrt, n) > 0.0
  {
    var len := Length(sqrt, n);
    Vec3(n.x / len, n.y / len, n.z / len)
  }

  /** With an exact square root, a normalized vector has length 1. */
  lemma NormalizedUnit(sqrt: real -> real, n: Vec3)
    requires IsSqrt(sqrt) && Length(sqrt, n) > 0.0
    ensures Normalized(sqrt, n).SquaredLength() == 1.0
  {
    SquaredFromLength(sqrt, n);
    UnitAfterDivide(n, Length(sqrt, n));
  }

  /** A vector of positive length is non-zero, and its length squared is its squared length. */
  lemma SquaredFromLength(sqrt: real -> real, n: Vec3)
    requires IsSqrt(sqrt) && Length(sqrt, n) > 0.0
    ensures n.SquaredLength() > 0.0 && Length(sqrt, n) * Length(sqrt, n) == n.SquaredLength()
  {
    var s, r := n.SquaredLength(), Length(sqrt, n);
    assert 0.0 <= n.x * n.x && 0.0 <= n.y * n.y && 0.0 <= n.z * n.z;
    SqrtOfSquare(sqrt, s);
    if s == 0.0 {
      ProductZero(r, r);
      assert false;
    }
  }

  /** A non-zero vector has a positive length. */
  lemma LengthPositive(sqrt: real -> real, n: Vec3)
    requires IsSqrt(sqrt) && n.SquaredLength() > 0.0
    ensures Length(sqrt, n) > 0.0
  {
    SqrtPositive(sqrt, n.SquaredLength());
  }

  lemma UnitAfterDivide(n: Vec3, len: real)
    requires len > 0.0 && n.SquaredLength() > 0.0 && len * len == n.SquaredLength()
    ensures Vec3(n.x / len, n.y / len, n.z / len).SquaredLength() == 1.0
  {
    var k := n.SquaredLength();
    SumOfQuotients(n.x * n.x, n.y * n.y, n.z * n.z, k);
    QuotientSquared(n.x, len, k);
    QuotientSquared(n.y, len, k);
    QuotientSquared(n.z, len, k);
  }

  lemma QuotientSquared(a: real, l: real, k: real)
    requires l > 0.0 && k > 0.0 && l * l == k
    ensures (a / l) * (a / l) == (a * a) / k
  {
    var q := a / l;
    assert q * l == a;
    assert (q * q) * (l * l) == (q * l) * (q * l);
    ProductEquation(q * q, a * a, k);
  }

  lemma SumOfQuotients(a: real, b: real, c: real, l: real)
    requires l > 0.0 && a + b + c == l
    ensures a / l + b / l + c / l == 1.0
  {
  }

  lemma ProductEquation(x: real, y: real, k: real)
    requires k != 0.0 && x * k == y
    ensures x == y / k
  {
  }

  /**
   * Normalising twice is normalising once, so the source's in-place
   * `normalize()` of the caller's normal on every call changes nothing
   * after the first.
   */
  lemma NormalizeIdempotent(sqrt: real -> real, n: Vec3)
    requires IsSqrt(sqrt) && n.SquaredLength() > 0.0
    ensures Normalized(sqrt, Normalized(sqrt, n)) == Normalized(sqrt, n)
  {
    var u := Normalized(sqrt, n);
    LengthPositive(sqrt, n);
    NormalizedUnit(sqrt, n);
    SqrtUnique(sqrt, 1.0, 1.0);
    assert Length(sqrt, u) == 1.0;
  }
}
