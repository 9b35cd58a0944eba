/** Maya's MQuaternion over exact reals: the product, the inverse and the
    identity that the joint chain uses to turn global rotations into local ones. */
module Quaternions {

  /** An MQuaternion (x, y, z, w) with w the scalar part. */
  datatype Quat = Quat(x: real, y: real, z: real, w: real)

  /** `MQuaternion()`: the identity rotation. */
  const Identity := Quat(0.0, 0.0, 0.0, 1.0)

  /** The quaternion product `a * b`, written as the Hamilton product. The
      order in which Maya composes the two factors is not visible from the
      plug-in; the chain's proofs rely only on associativity, the identity
      and the inverse, which hold for either order. */
  function Mul(a: Quat, b: Quat): Quat {
    Quat(a.w * b.x + a.x * b.w + a.y * b.z - a.z * b.y,
         a.w * b.y - a.x * b.z + a.y * b.w + a.z * b.x,
         a.w * b.z + a.x * b.y - a.y * b.x + a.z * b.w,
         a.w * b.w - a.x * b.x - a.y * b.y - a.z * b.z)
  }

  function NormSq(q: Quat): real { q.x * q.x + q.y * q.y + q.z * q.z + q.w * q.w }

  /** `q.inverse()`: the conjugate divided by the squared norm. */
  function Inverse(q: Quat): Quat
    requires NormSq(q) != 0.0
  {
    var c := 1.0 / NormSq(q);
    Quat(-q.x * c, -q.y * c, -q.z * c, q.w * c)
  }

  lemma MulAssociative(a: Quat, b: Quat, c: Quat)
    ensures Mul(Mul(a, b), c) == Mul(a, Mul(b, c))
  {
    MulAssociativeX(a, b, c);
    MulAssociativeY(a, b, c);
    MulAssociativeZ(a, b, c);
    MulAssociativeW(a, b, c);
  }

  // Each component lemma spells out a * b and b * c as plain products, so
  // that the solver meets the same polynomials on both sides of the call.
  lemma MulAssociativeX(a: Quat, b: Quat, c: Quat)
    ensures Mul(Mul(a, b), c).x == Mul(a, Mul(b, c)).x
  {
    var ab := Quat(a.w * b.x + a.x * b.w + a.y * b.z - a.z * b.y,
                   a.w * b.y - a.x * b.z + a.y * b.w + a.z * b.x,
                   a.w * b.z + a.x * b.y - a.y * b.x + a.z * b.w,
                   a.w * b.w - a.x * b.x - a.y * b.y - a.z * b.z);
    var bc := Quat(b.w * c.x + b.x * c.w + b.y * c.z - b.z * c.y,
                   b.w * c.y - b.x * c.z + b.y * c.w + b.z * c.x,
                   b.w * c.z + b.x * c.y - b.y * c.x + b.z * c.w,
                   b.w * c.w - b.x * c.x - b.y * c.y - b.z * c.z);
    AssociatesX(a.x, a.y, a.z, a.w, b.x, b.y, b.z, b.w, c.x, c.y, c.z, c.w, ab.x, ab.y, ab.z, ab.w, bc.x, bc.y, bc.z, bc.w);
  }

  lemma MulAssociativeY(a: Quat, b: Quat, c: Quat)
    ensures Mul(Mul(a, b), c).y == Mul(a, Mul(b, c)).y
  {
    var ab := Quat(a.w * b.x + a.x * b.w + a.y * b.z - a.z * b.y,
                   a.w * b.y - a.x * b.z + a.y * b.w + a.z * b.x,
                   a.w * b.z + a.x * b.y - a.y * b.x + a.z * b.w,
                   a.w * b.w - a.x * b.x - a.y * b.y - a.z * b.z);
    var bc := Quat(b.w * c.x + b.x * c.w + b.y * c.z - b.z * c.y,
                   b.w * c.y - b.x * c.z + b.y * c.w + b.z * c.x,
                   b.w * c.z + b.x * c.y - b.y * c.x + b.z * c.w,
                   b.w * c.w - b.x * c.x - b.y * c.y - b.z * c.z);
    AssociatesY(a.x, a.y, a.z, a.w, b.x, b.y, b.z, b.w, c.x, c.y, c.z, c.w, ab.x, ab.y, ab.z, ab.w, bc.x, bc.y, bc.z, bc.w);
  }

  lemma MulAssociativeZ(a: Quat, b: Quat, c: Quat)
    ensures Mul(Mul(a, b), c).z == Mul(a, Mul(b, c)).z
  {
    var ab := Quat(a.w * b.x + a.x * b.w + a.y * b.z - a.z * b.y,
                   a.w * b.y - a.x * b.z + a.y * b.w + a.z * b.x,
                   a.w * b.z + a.x * b.y - a.y * b.x + a.z * b.w,
                   a.w * b.w - a.x * b.x - a.y * b.y - a.z * b.z);
    var bc := Quat(b.w * c.x + b.x * c.w + b.y * c.z - b.z * c.y,
                   b.w * c.y - b.x * c.z + b.y * c.w + b.z * c.x,
                   b.w * c.z + b.x * c.y - b.y * c.x + b.z * c.w,
                   b.w * c.w - b.x * c.x - b.y * c.y - b.z * c.z);
    AssociatesZ(a.x, a.y, a.z, a.w, b.x, b.y, b.z, b.w, c.x, c.y, c.z, c.w, ab.x, ab.y, ab.z, ab.w, bc.x, bc.y, bc.z, bc.w);
  }

  lemma MulAssociativeW(a: Quat, b: Quat, c: Quat)
    ensures Mul(Mul(a, b), c).w == Mul(a, Mul(b, c)).w
  {
    var ab := Quat(a.w * b.x + a.x * b.w + a.y * b.z - a.z * b.y,
                   a.w * b.y - a.x * b.z + a.y * b.w + a.z * b.x,
                   a.w * b.z + a.x * b.y - a.y * b.x + a.z * b.w,
                   a.w * b.w - a.x * b.x - a.y * b.y - a.z * b.z);
    var bc := Quat(b.w * c.x + b.x * c.w + b.y * c.z - b.z * c.y,
                   b.w * c.y - b.x * c.z + b.y * c.w + b.z * c.x,
                   b.w * c.z + b.x * c.y - b.y * c.x + b.z * c.w,
                   b.w * c.w - b.x * c.x - b.y * c.y - b.z * c.z);
    AssociatesW(a.x, a.y, a.z, a.w, b.x, b.y, b.z, b.w, c.x, c.y, c.z, c.w, ab.x, ab.y, ab.z, ab.w, bc.x, bc.y, bc.z, bc.w);
  }

  // Associativity over plain reals, one component at a time: given the
  // components of a * b and b * c, both sides expand to the same polynomial.
  lemma AssociatesX(ax: real, ay: real, az: real, aw: real, ux: real, uy: real, uz: real, uw: real,
                     cx: real, cy: real, cz: real, cw: real,
                     abx: real, aby: real, abz: real, abw: real, ucx: real, ucy: real, ucz: real, ucw: real)
    requires abx == aw * ux + ax * uw + ay * uz - az * uy
    requires aby == aw * uy - ax * uz + ay * uw + az * ux
    requires abz == aw * uz + ax * uy - ay * ux + az * uw
    requires abw == aw * uw - ax * ux - ay * uy - az * uz
    requires ucx == uw * cx + ux * cw + uy * cz - uz * cy
    requires ucy == uw * cy - ux * cz + uy * cw + uz * cx
    requires ucz == uw * cz + ux * cy - uy * cx + uz * cw
    requires ucw == uw * cw - ux * cx - uy * cy - uz * cz
    ensures abw * cx + abx * cw + aby * cz - abz * cy == aw * ucx + ax * ucw + ay * ucz - az * ucy
  {
    assert abw * cx + abx * cw + aby * cz - abz * cy == aw * uw * cx + aw * ux * cw + aw * uy * cz - aw * uz * cy + ax * uw * cw - ax * ux * cx - ax * uy * cy - ax * uz * cz + ay * uw * cz + ay * ux * cy - ay * uy * cx + ay * uz * cw - az * uw * cy + az * ux * cz - az * uy * cw - az * uz * cx;
    assert aw * ucx + ax * ucw + ay * ucz - az * ucy == aw * uw * cx + aw * ux * cw + aw * uy * cz - aw * uz * cy + ax * uw * cw - ax * ux * cx - ax * uy * cy - ax * uz * cz + ay * uw * cz + ay * ux * cy - ay * uy * cx + ay * uz * cw - az * uw * cy + az * ux * cz - az * uy * cw - az * uz * cx;
  }

  lemma AssociatesY(ax: real, ay: real, az: real, aw: real, ux: real, uy: real, uz: real, uw: real,
                     cx: real, cy: real, cz: real, cw: real,
                     abx: real, aby: real, abz: real, abw: real, ucx: real, ucy: real, ucz: real, ucw: real)
    requires abx == aw * ux + ax * uw + ay * uz - az * uy
    requires aby == aw * uy - ax * uz + ay * uw + az * ux
    requires abz == aw * uz + ax * uy - ay * ux + az * uw
    requires abw == aw * uw - ax * ux - ay * uy - az * uz
    requires ucx == uw * cx + ux * cw + uy * cz - uz * cy
    requires ucy == uw * cy - ux * cz + uy * cw + uz * cx
    requires ucz == uw * cz + ux * cy - uy * cx + uz * cw
    requires ucw == uw * cw - ux * cx - uy * cy - uz * cz
    ensures abw * cy - abx * cz + aby * cw + abz * cx == aw * ucy - ax * ucz + ay * ucw + az * ucx
  {
    assert abw * cy - abx * cz + aby * cw + abz * cx == aw * uw * cy - aw * ux * cz + aw * uy * cw + aw * uz * cx - ax * uw * cz - ax * ux * cy + ax * uy * cx - ax * uz * cw + ay * uw * cw - ay * ux * cx - ay * uy * cy - ay * uz * cz + az * uw * cx + az * ux * cw + az * uy * cz - az * uz * cy;
    assert aw * ucy - ax * ucz + ay * ucw + az * ucx == aw * uw * cy - aw * ux * cz + aw * uy * cw + aw * uz * cx - ax * uw * cz - ax * ux * cy + ax * uy * cx - ax * uz * cw + ay * uw * cw - ay * ux * cx - ay * uy * cy - ay * uz * cz + az * uw * cx + az * ux * cw + az * uy * cz - az * uz * cy;
  }

  lemma AssociatesZ(ax: real, ay: real, az: real, aw: real, ux: real, uy: real, uz: real, uw: real,
                     cx: real, cy: real, cz: real, cw: real,
                     abx: real, aby: real, abz: real, abw: real, ucx: real, ucy: real, ucz: real, ucw: real)
    requires abx == aw * ux + ax * uw + ay * uz - az * uy
    requires aby == aw * uy - ax * uz + ay * uw + az * ux
    requires abz == aw * uz + ax * uy - ay * ux + az * uw
    requires abw == aw * uw - ax * ux - ay * uy - az * uz
    requires ucx == uw * cx + ux * cw + uy * cz - uz * cy
    requires ucy == uw * cy - ux * cz + uy * cw + uz * cx
    requires ucz == uw * cz + ux * cy - uy * cx + uz * cw
    requires ucw == uw * cw - ux * cx - uy * cy - uz * cz
    ensures abw * cz + abx * cy - aby * cx + abz * cw == aw * ucz + ax * ucy - ay * ucx + az * ucw
  {
    assert abw * cz + abx * cy - aby * cx + abz * cw == aw * uw * cz + aw * ux * cy - aw * uy * cx + aw * uz * cw + ax * uw * cy - ax * ux * cz + ax * uy * cw + ax * uz * cx - ay * uw * cx - ay * ux * cw - ay * uy * cz + ay * uz * cy + az * uw * cw - az * ux * cx - az * uy * cy - az * uz * cz;
    assert aw * ucz + ax * ucy - ay * ucx + az * ucw == aw * uw * cz + aw * ux * cy - aw * uy * cx + aw * uz * cw + ax * uw * cy - ax * ux * cz + ax * uy * cw + ax * uz * cx - ay * uw * cx - ay * ux * cw - ay * uy * cz + ay * uz * cy + az * uw * cw - az * ux * cx - az * uy * cy - az * uz * cz;
  }

  lemma AssociatesW(ax: real, ay: real, az: real, aw: real, ux: real, uy: real, uz: real, uw: real,
                     cx: real, cy: real, cz: real, cw: real,
                     abx: real, aby: real, abz: real, abw: real, ucx: real, ucy: real, ucz: real, ucw: real)
    requires abx == aw * ux + ax * uw + ay * uz - az * uy
    requires aby == aw * uy - ax * uz + ay * uw + az * ux
    requires abz == aw * uz + ax * uy - ay * ux + az * uw
    requires abw == aw * uw - ax * ux - ay * uy - az * uz
    requires ucx == uw * cx + ux * cw + uy * cz - uz * cy
    requires ucy == uw * cy - ux * cz + uy * cw + uz * cx
    requires ucz == uw * cz + ux * cy - uy * cx + uz * cw
    requires ucw == uw * cw - ux * cx - uy * cy - uz * cz
    ensures abw * cw - abx * cx - aby * cy - abz * cz == aw * ucw - ax * ucx - ay * ucy - az * ucz
  {
    assert abw * cw - abx * cx - aby * cy - abz * cz == aw * uw * cw - aw * ux * cx - aw * uy * cy - aw * uz * cz - ax * uw * cx - ax * ux * cw - ax * uy * cz + ax * uz * cy - ay * uw * cy + ay * ux * cz - ay * uy * cw - ay * uz * cx - az * uw * cz - az * ux * cy + az * uy * cx - az * uz * cw;
    assert aw * ucw - ax * ucx - ay * ucy - az * ucz == aw * uw * cw - aw * ux * cx - aw * uy * cy - aw * uz * cz - ax * uw * cx - ax * ux * cw - ax * uy * cz + ax * uz * cy - ay * uw * cy + ay * ux * cz - ay * uy * cw - ay * uz * cx - az * uw * cz - az * ux * cy + az * uy * cx - az * uz * cw;
  }

  lemma MulIdentity(q: Quat)
    ensures Mul(q, Identity) == q && Mul(Identity, q) == q
  {
  }

  /** The inverse cancels on either side. */
  lemma InverseCancels(q: Quat)
    requires NormSq(q) != 0.0
    ensures Mul(Inverse(q), q) == Identity
    ensures Mul(q, Inverse(q)) == Identity
  {
    var n := NormSq(q);
    var c := 1.0 / n;
    assert c * n == 1.0;
    var i := Inverse(q);
    assert Mul(i, q).w == c * n;
    assert Mul(q, i).w == c * n;
  }

  lemma InverseOfIdentity()
    ensures NormSq(Identity) == 1.0 && Inverse(Identity) == Identity
  {
  }

  /** Undoing a rotation that was divided out: `(g * p.inverse()) * p == g`. */
  lemma {:induction false} DivideThenMultiply(g: Quat, p: Quat)
    requires NormSq(p) != 0.0
    ensures Mul(Mul(g, Inverse(p)), p) == g
  {
    MulAssociative(g, Inverse(p), p);
    InverseCancels(p);
    MulIdentity(g);
  }
}
