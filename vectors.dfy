/**
 * Three-component vectors (the Vector3 / Vec3 objects of the game) and integer
 * grid cells, with the small amount of arithmetic the rest of the model needs.
 * JavaScript numbers are modelled as `real`; grid coordinates as `int`.
 */
module Vectors {

  /** A continuous 3D point or direction. */
  datatype Vec3 = Vec3(x: real, y: real, z: real)

  /** An integer grid coordinate (the result of `floor()` / `round()` on a Vector3). */
  datatype Cell = Cell(x: int, y: int, z: int)

  const Zero := Vec3(0.0, 0.0, 0.0)

  function Add(a: Vec3, b: Vec3): (v: Vec3) {
    Vec3(a.x + b.x, a.y + b.y, a.z + b.z)
  }

  function Sub(a: Vec3, b: Vec3): (v: Vec3) {
    Vec3(a.x - b.x, a.y - b.y, a.z - b.z)
  }

  function Scale(a: Vec3, k: real): (v: Vec3) {
    Vec3(a.x * k, a.y * k, a.z * k)
  }

  /** `divideScalar(2)`. */
  function Halve(a: Vec3): (v: Vec3) {
    Vec3(a.x / 2.0, a.y / 2.0, a.z / 2.0)
  }

  function Negate(a: Vec3): (v: Vec3) {
    Vec3(-a.x, -a.y, -a.z)
  }

  /** The squared Euclidean length (`lengthSquared()`). */
  function Norm2(a: Vec3): (n: real) {
    a.x * a.x + a.y * a.y + a.z * a.z
  }

  /** A cell seen as a vector with integral components. */
  function AsVec(c: Cell): (v: Vec3) {
    Vec3(c.x as real, c.y as real, c.z as real)
  }

  /** Componentwise `Math.floor` (Vector3.floor()). */
  function FloorCell(v: Vec3): (c: Cell)
    ensures c.x as real <= v.x < c.x as real + 1.0
    ensures c.y as real <= v.y < c.y as real + 1.0
    ensures c.z as real <= v.z < c.z as real + 1.0
  {
    Cell(v.x.Floor, v.y.Floor, v.z.Floor)
  }

  /** `Math.round`: rounds half-way values toward +infinity, i.e. floor(x + 1/2). */
  function Round(x: real): (n: int)
    ensures n as real - 0.5 <= x < n as real + 0.5
  {
    (x + 0.5).Floor
  }

  /** `Math.floor`. */
  function Floor(x: real): (n: int)
    ensures n as real <= x < n as real + 1.0
  {
    x.Floor
  }

  /** `Math.ceil`. */
  function Ceil(x: real): (n: int)
    ensures x <= n as real < x + 1.0
  {
    -((-x).Floor)
  }

  function Abs(n: int): (m: nat) {
    if n < 0 then -n else n
  }

  lemma FloorOfCell(c: Cell)
    ensures FloorCell(AsVec(c)) == c
  {
  }
}

/** Integer division facts used by the traversal and the raster lookup. */
module Arith {

  /** Euclidean division is determined by any quotient / remainder pair. */
  lemma DivUnique(x: int, d: int, q: int, r: int)
    requires d > 0 && 0 <= r < d && x == q * d + r
    ensures x / d == q && x % d == r
  {
    var q', r' := x / d, x % d;
    assert x == q' * d + r';
    if q' < q {
      assert (q - q') * d == q * d - q' * d;
      MulAtLeast(q - q', d);
    } else if q' > q {
      assert (q' - q) * d == q' * d - q * d;
      MulAtLeast(q' - q, d);
    }
  }

  lemma MulAtLeast(a: int, d: int)
    requires a >= 1 && d > 0
    ensures a * d >= d
  {
  }

  /** A positive product has positive factors. */
  lemma PositiveFactor(w: nat, h: nat)
    requires w * h > 0
    ensures w > 0 && h > 0
  {
  }
}
