/** Vectors over the reals. */
module Geometry {
  datatype Vec3 = Vec3(x: real, y: real, z: real)

  function Minus(a: Vec3, b: Vec3): Vec3 { Vec3(a.x - b.x, a.y - b.y, a.z - b.z) }

  function Scaled(a: Vec3, f: real): Vec3 { Vec3(a.x * f, a.y * f, a.z * f) }

  function Dot(a: Vec3, b: Vec3): real { a.x * b.x + a.y * b.y + a.z * b.z }

  function Cross(a: Vec3, b: Vec3): Vec3 {
    Vec3(a.y * b.z - a.z * b.y, a.z * b.x - a.x * b.z, a.x * b.y - a.y * b.x)
  }

  /** The square root is a parameter; all that matters is that it is one. */
  ghost predicate IsRoot(root: real -> real) {
    forall x: real :: x >= 0.0 ==> root(x) >= 0.0 && root(x) * root(x) == x
  }

  lemma NonNegativeProduct(x: real, y: real)
    requires x >= 0.0 && y >= 0.0
    ensures x * y >= 0.0
  {
  }

  lemma Square(x: real)
    ensures x * x >= 0.0
  {
  }

  lemma SumOfSquares(x: real, y: real, z: real)
    ensures x * x + y * y + z * z >= x * x
    ensures x * x + y * y + z * z >= y * y
    ensures x * x + y * y + z * z >= z * z
    ensures x * x + y * y + z * z >= 0.0
  {
    Square(x);
    Square(y);
    Square(z);
    var a, b, c := x * x, y * y, z * z;
    assert a + b + c >= a && a + b + c >= b && a + b + c >= c && a + b + c >= 0.0;
  }

  lemma SquareSum(a: Vec3)
    ensures Dot(a, a) >= 0.0
    ensures Dot(a, a) >= a.x * a.x && Dot(a, a) >= a.y * a.y && Dot(a, a) >= a.z * a.z
  {
    SumOfSquares(a.x, a.y, a.z);
  }

  /** Scaling by a positive number keeps the order. */
  lemma ScaledOrder(a: real, b: real, c: real)
    requires c > 0.0
    ensures a <= b <==> a * c <= b * c
    ensures a < b <==> a * c < b * c
  {
    ScaledLess(a, b, c);
    ScaledLess(b, a, c);
  }

  lemma ScaledLess(a: real, b: real, c: real)
    requires c > 0.0
    ensures a < b ==> a * c < b * c
  {
    if a < b {
      StrictProduct(b - a, c);
      DifferenceProduct(b, a, c);
    }
  }

  lemma StrictProduct(a: real, b: real)
    requires a > 0.0 && b > 0.0
    ensures a * b > 0.0
  {
  }

  lemma DifferenceProduct(b: real, a: real, c: real)
    ensures (b - a) * c == b * c - a * c
  {
  }

  /** A quotient times its divisor is the dividend. */
  lemma QuotientProduct(a: real, b: real)
    requires b != 0.0
    ensures a / b * b == a
  {
  }
}
