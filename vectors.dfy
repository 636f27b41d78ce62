/**
 * The three-component vector the solids are built on. The solids use a
 * `Vector3` type defined elsewhere in the program; this module gives it the minimal
 * meaning the solids rely on: exact real coordinates, componentwise `+` and
 * `-`, the squared length, and `<=` / `>=` read as "on all three axes".
 */
module Vectors {

  datatype Vector3 = Vector3(X: real, Y: real, Z: real)
  {
    function Plus(other: Vector3): Vector3 {
      Vector3(X + other.X, Y + other.Y, Z + other.Z)
    }

    function Minus(other: Vector3): Vector3 {
      Vector3(X - other.X, Y - other.Y, Z - other.Z)
    }

    /** Squared Euclidean length. */
    function GetLength2(): real {
      X * X + Y * Y + Z * Z
    }

    /** `this <= other` on every axis. */
    predicate LessOrEqual(other: Vector3) {
      X <= other.X && Y <= other.Y && Z <= other.Z
    }

    /** `this >= other` on every axis. */
    predicate GreaterOrEqual(other: Vector3) {
      X >= other.X && Y >= other.Y && Z >= other.Z
    }
  }

  /** The three coordinate axes, for statements made once for each axis. */
  datatype Axis = AxisX | AxisY | AxisZ

  /** The coordinate of `v` along axis `a`. */
  function Coord(v: Vector3, a: Axis): real {
    match a
    case AxisX => v.X
    case AxisY => v.Y
    case AxisZ => v.Z
  }

  /** `Math.Min` on exact reals. */
  function Min(a: real, b: real): (m: real)
    ensures m <= a && m <= b
    ensures m == a || m == b
  {
    if a <= b then a else b
  }

  /** `Math.Max` on exact reals. */
  function Max(a: real, b: real): (m: real)
    ensures m >= a && m >= b
    ensures m == a || m == b
  {
    if a >= b then a else b
  }

  /** Componentwise minimum. */
  function MinV(a: Vector3, b: Vector3): Vector3 {
    Vector3(Min(a.X, b.X), Min(a.Y, b.Y), Min(a.Z, b.Z))
  }

  /** Componentwise maximum. */
  function MaxV(a: Vector3, b: Vector3): Vector3 {
    Vector3(Max(a.X, b.X), Max(a.Y, b.Y), Max(a.Z, b.Z))
  }

  /** A real whose square is at most `r * r`, for `r >= 0`, lies in `[-r, r]`. */
  lemma SquareBound(d: real, r: real)
    requires r >= 0.0 && d * d <= r * r
    ensures -r <= d <= r
  {
    if d > r {
      ProductPositive(d - r, d + r);
    } else if d < -r {
      ProductPositive(r - d, -r - d);
    }
  }

  lemma ProductPositive(a: real, b: real)
    requires a > 0.0 && b > 0.0
    ensures a * b > 0.0
  {
  }

  /** Every coordinate's square is at most the squared length. */
  lemma SquaresBelowLength2(v: Vector3)
    ensures v.X * v.X <= v.GetLength2()
    ensures v.Y * v.Y <= v.GetLength2()
    ensures v.Z * v.Z <= v.GetLength2()
  {
    assert v.X * v.X >= 0.0 && v.Y * v.Y >= 0.0 && v.Z * v.Z >= 0.0;
  }
}
