/** Three-component positions and velocities, as the sketches' `{x, y, z}`
    and `vx, vy, vz` fields hold them. */
module Vectors {

  datatype Vec = Vec(x: real, y: real, z: real)

  const Zero := Vec(0.0, 0.0, 0.0)

  function Dot(a: Vec, b: Vec): real {
    a.x * b.x + a.y * b.y + a.z * b.z
  }

  /** `x*x + y*y + z*z`, the `r2` of the sketches. */
  function NormSq(a: Vec): real {
    Dot(a, a)
  }

  function Add(a: Vec, b: Vec): Vec {
    Vec(a.x + b.x, a.y + b.y, a.z + b.z)
  }

  function Sub(a: Vec, b: Vec): Vec {
    Vec(a.x - b.x, a.y - b.y, a.z - b.z)
  }

  /** Every component multiplied by `k`, as `nd.x *= ratio` does. */
  function Scaled(a: Vec, k: real): Vec {
    Vec(a.x * k, a.y * k, a.z * k)
  }

  lemma NormSqNonneg(a: Vec)
    ensures NormSq(a) >= 0.0
  {
    assert a.x * a.x >= 0.0 && a.y * a.y >= 0.0 && a.z * a.z >= 0.0;
  }

  /** Scaling multiplies the squared norm by the square of the factor. */
  lemma NormSqScaled(a: Vec, k: real)
    ensures NormSq(Scaled(a, k)) == k * k * NormSq(a)
  {
    assert (a.x * k) * (a.x * k) == k * k * (a.x * a.x);
    assert (a.y * k) * (a.y * k) == k * k * (a.y * a.y);
    assert (a.z * k) * (a.z * k) == k * k * (a.z * a.z);
  }

  lemma DotScaled(w: Vec, n: Vec, k: real)
    ensures Dot(w, Scaled(n, k)) == k * Dot(w, n)
  {
    assert w.x * (n.x * k) + w.y * (n.y * k) + w.z * (n.z * k)
        == k * (w.x * n.x + w.y * n.y + w.z * n.z);
  }
}
