/** Three-component vectors over `real` (the source's `Vector` with `dReal`
    components) and the few operations the modelled code applies to them. */
module Geometry {

  datatype Vec3 = Vec3(x: real, y: real, z: real)

  /** The zero vector, which is what a default-constructed `Vector` holds. */
  const Zero := Vec3(0.0, 0.0, 0.0)

  /** `dot3` */
  function Dot(a: Vec3, b: Vec3): real {
    a.x * b.x + a.y * b.y + a.z * b.z
  }

  /** `cross` */
  function Cross(a: Vec3, b: Vec3): Vec3 {
    Vec3(a.y * b.z - a.z * b.y, a.z * b.x - a.x * b.z, a.x * b.y - a.y * b.x)
  }

  /** `lengthsqr3` */
  function LengthSqr(a: Vec3): real {
    Dot(a, a)
  }

  function Scale(k: real, a: Vec3): Vec3 {
    Vec3(k * a.x, k * a.y, k * a.z)
  }

  /** Scaling the second argument scales a dot product. */
  lemma DotScale(a: Vec3, b: Vec3, k: real)
    ensures Dot(a, Scale(k, b)) == k * Dot(a, b)
  {
  }

  /** Scaling the second argument scales a cross product. */
  lemma CrossScale(a: Vec3, b: Vec3, k: real)
    ensures Cross(a, Scale(k, b)) == Scale(k, Cross(a, b))
  {
    var l, r := Cross(a, Scale(k, b)), Scale(k, Cross(a, b));
    assert l.x == r.x by {
      assert a.y * (k * b.z) - a.z * (k * b.y) == k * (a.y * b.z - a.z * b.y);
    }
    assert l.y == r.y by {
      assert a.z * (k * b.x) - a.x * (k * b.z) == k * (a.z * b.x - a.x * b.z);
    }
    assert l.z == r.z by {
      assert a.x * (k * b.y) - a.y * (k * b.x) == k * (a.x * b.y - a.y * b.x);
    }
  }

  /** Scaling a vector by `k` scales its squared length by `k*k`. */
  lemma LengthScale(b: Vec3, k: real)
    ensures LengthSqr(Scale(k, b)) == k * k * LengthSqr(b)
  {
  }

  /** Lagrange's identity: `|a x b|^2 + (a . b)^2 == |a|^2 |b|^2`. */
  lemma Lagrange(a: Vec3, b: Vec3)
    ensures LengthSqr(Cross(a, b)) + Dot(a, b) * Dot(a, b) == LengthSqr(a) * LengthSqr(b)
  {
  }
}
