/** Three-dimensional vectors over the reals (math/Vector3D.java). The
    operations that need a square root (length, norm, projectOnto) are not
    part of this model. */
module Vectors {

  datatype Vec3 = Vec3(x: real, y: real, z: real)

  /** The default constructor: the zero vector. */
  function Zero(): Vec3
  {
    Vec3(0.0, 0.0, 0.0)
  }

  function Add(a: Vec3, b: Vec3): Vec3
  {
    Vec3(a.x + b.x, a.y + b.y, a.z + b.z)
  }

  function Subtract(a: Vec3, b: Vec3): Vec3
  {
    Vec3(a.x - b.x, a.y - b.y, a.z - b.z)
  }

  function Scale(a: Vec3, k: real): Vec3
  {
    Vec3(a.x * k, a.y * k, a.z * k)
  }

  function Dot(a: Vec3, b: Vec3): real
  {
    a.x * b.x + a.y * b.y + a.z * b.z
  }

  function Cross(a: Vec3, b: Vec3): Vec3
  {
    Vec3(a.y * b.z - a.z * b.y,
         a.z * b.x - a.x * b.z,
         a.x * b.y - a.y * b.x)
  }

  /** The vector from `a` to `b`. */
  function VectorTo(a: Vec3, b: Vec3): (r: Vec3)
    ensures Add(a, r) == b
  {
    Subtract(b, a)
  }

  /** The squared length; the source's `length() > 0` test is `LengthSq > 0`. */
  function LengthSq(a: Vec3): real
  {
    Dot(a, a)
  }

  lemma AddSubtractInverse(a: Vec3, b: Vec3)
    ensures Subtract(Add(a, b), b) == a
    ensures Add(Subtract(a, b), b) == a
  {
  }

  lemma ZeroIsAdditiveIdentity(a: Vec3)
    ensures Add(a, Zero()) == a && Add(Zero(), a) == a
    ensures Scale(a, 1.0) == a
  {
  }

  lemma AddCommutesAndAssociates(a: Vec3, b: Vec3, c: Vec3)
    ensures Add(a, b) == Add(b, a)
    ensures Add(Add(a, b), c) == Add(a, Add(b, c))
  {
  }

  lemma DotSymmetric(a: Vec3, b: Vec3)
    ensures Dot(a, b) == Dot(b, a)
  {
  }

  lemma CrossAntiCommutative(a: Vec3, b: Vec3)
    ensures Cross(a, b) == Scale(Cross(b, a), -1.0)
  {
  }

  /** The cross product is orthogonal to both factors. */
  lemma CrossOrthogonal(a: Vec3, b: Vec3)
    ensures Dot(a, Cross(a, b)) == 0.0
    ensures Dot(b, Cross(a, b)) == 0.0
  {
    calc {
      Dot(a, Cross(a, b));
      a.x * (a.y * b.z - a.z * b.y) + a.y * (a.z * b.x - a.x * b.z) + a.z * (a.x * b.y - a.y * b.x);
      (a.x * a.y * b.z - a.y * a.x * b.z) + (a.y * a.z * b.x - a.z * a.y * b.x) + (a.z * a.x * b.y - a.x * a.z * b.y);
      0.0;
    }
    calc {
      Dot(b, Cross(a, b));
      b.x * (a.y * b.z - a.z * b.y) + b.y * (a.z * b.x - a.x * b.z) + b.z * (a.x * b.y - a.y * b.x);
      (b.x * a.y * b.z - b.z * a.y * b.x) + (b.y * a.z * b.x - b.x * a.z * b.y) + (b.z * a.x * b.y - b.y * a.x * b.z);
      0.0;
    }
  }

  /** (2,0,0) x (0,1,0) = (0,0,2), as in test/VisualVectorDebugger.java. */
  lemma CrossExample()
    ensures Cross(Vec3(2.0, 0.0, 0.0), Vec3(0.0, 1.0, 0.0)) == Vec3(0.0, 0.0, 2.0)
  {
  }
}
