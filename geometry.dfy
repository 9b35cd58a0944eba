/** Maya's MVector and MPoint over exact reals, with the vector algebra the core uses. */
module Geometry {

  /** An MVector: a direction or displacement. */
  datatype Vec = Vec(x: real, y: real, z: real)

  /** An MPoint: a homogeneous position; points read from a mesh have w == 1. */
  datatype Point = Point(x: real, y: real, z: real, w: real)

  const Zero := Vec(0.0, 0.0, 0.0)

  function Add(a: Vec, b: Vec): Vec { Vec(a.x + b.x, a.y + b.y, a.z + b.z) }

  function Sub(a: Vec, b: Vec): Vec { Vec(a.x - b.x, a.y - b.y, a.z - b.z) }

  function Scale(a: Vec, s: real): Vec { Vec(a.x * s, a.y * s, a.z * s) }

  function Neg(a: Vec): Vec { Vec(-a.x, -a.y, -a.z) }

  function Dot(a: Vec, b: Vec): real { a.x * b.x + a.y * b.y + a.z * b.z }

  /** Maya's `^` operator on MVector. */
  function Cross(a: Vec, b: Vec): Vec {
    Vec(a.y * b.z - a.z * b.y, a.z * b.x - a.x * b.z, a.x * b.y - a.y * b.x)
  }

  /** MPoint - MPoint: the Cartesian displacement from b to a. */
  function Diff(a: Point, b: Point): Vec { Vec(a.x - b.x, a.y - b.y, a.z - b.z) }

  /** The midpoint of two vectors, `(a + b) * 0.5`. */
  function Mid(a: Vec, b: Vec): Vec { Scale(Add(a, b), 0.5) }

  /** `len` is the Euclidean length: Dafny's reals have no square root, so the
      length is a parameter pinned down by its defining law. The law is used
      through `NormLaw` only, which keeps the solver from applying it to every
      length in sight. */
  ghost predicate IsNorm(len: Vec -> real) {
    forall v {:trigger LengthOf(len, v)} :: 0.0 <= len(v) && len(v) * len(v) == Dot(v, v)
  }

  ghost function LengthOf(len: Vec -> real, v: Vec): real { len(v) }

  lemma NormLaw(len: Vec -> real, v: Vec)
    requires IsNorm(len)
    ensures 0.0 <= len(v) && len(v) * len(v) == Dot(v, v)
  {
    assert LengthOf(len, v) == len(v);
  }

  /** MVector.normal(): the vector scaled to unit length; a vector of length
      zero is returned unchanged. */
  function Normal(len: Vec -> real, v: Vec): Vec {
    if len(v) == 0.0 then v else Scale(v, 1.0 / len(v))
  }

  ghost predicate IsUnit(v: Vec) { Dot(v, v) == 1.0 }

  /** The sign rules of real multiplication. */
  lemma ProductSign(a: real, b: real)
    ensures a > 0.0 && b > 0.0 ==> a * b > 0.0
    ensures a < 0.0 && b < 0.0 ==> a * b > 0.0
    ensures a > 0.0 && b < 0.0 ==> a * b < 0.0
    ensures a < 0.0 && b > 0.0 ==> a * b < 0.0
    ensures a * b == 0.0 ==> a == 0.0 || b == 0.0
  {
  }

  lemma DotSelfZero(v: Vec)
    ensures Dot(v, v) >= 0.0
    ensures Dot(v, v) == 0.0 <==> v == Zero
  {
    ProductSign(v.x, v.x);
    ProductSign(v.y, v.y);
    ProductSign(v.z, v.z);
  }

  /** Only the zero vector has length zero. */
  lemma NormZero(len: Vec -> real, v: Vec)
    requires IsNorm(len)
    ensures len(v) == 0.0 <==> v == Zero
  {
    DotSelfZero(v);
    NormLaw(len, v);
    RootZero(len(v), Dot(v, v));
  }

  lemma RootZero(l: real, d: real)
    requires l >= 0.0 && l * l == d
    ensures l == 0.0 <==> d == 0.0
  {
    ProductSign(l, l);
  }

  lemma DotScale(a: Vec, b: Vec, s: real)
    ensures Dot(Scale(a, s), b) == s * Dot(a, b)
    ensures Dot(a, Scale(b, s)) == s * Dot(a, b)
  {
  }

  lemma DotNeg(a: Vec, b: Vec)
    ensures Dot(Neg(a), b) == -Dot(a, b)
    ensures Dot(a, Neg(b)) == -Dot(a, b)
  {
  }

  /** Normalising a non-zero vector gives a unit vector. */
  lemma {:induction false} NormalOfNonZero(len: Vec -> real, v: Vec)
    requires IsNorm(len) && v != Zero
    ensures len(v) > 0.0
    ensures Normal(len, v) == Scale(v, 1.0 / len(v))
    ensures IsUnit(Normal(len, v))
  {
    NormZero(len, v);
    NormLaw(len, v);
    var l := len(v);
    var c := 1.0 / l;
    var n := Scale(v, c);
    DotScale(v, n, c);
    DotScale(v, v, c);
    UnitScale(l, c, Dot(v, v), Dot(v, n), Dot(n, n));
  }

  /** The arithmetic of `NormalOfNonZero`: scaling by `1 / l` a vector whose
      squared length is `l * l`. */
  lemma UnitScale(l: real, c: real, vv: real, vn: real, nn: real)
    requires l > 0.0 && c == 1.0 / l && vv == l * l
    requires nn == c * vn && vn == c * vv
    ensures nn == 1.0
  {
    assert c * l == 1.0;
    calc {
      nn;
      c * (c * (l * l));
      (c * l) * (c * l);
      1.0;
    }
  }

  /** Two non-negative reals with the same square are equal. */
  lemma SquareRootUnique(a: real, b: real)
    requires a >= 0.0 && b >= 0.0 && a * a == b * b
    ensures a == b
  {
    assert (a - b) * (a + b) == a * a - b * b;
    ProductSign(a - b, a + b);
  }

  /** Length is homogeneous: scaling by `s` scales the length by `|s|`. */
  lemma {:induction false} NormScale(len: Vec -> real, v: Vec, s: real)
    requires IsNorm(len)
    ensures len(Scale(v, s)) == (if s < 0.0 then -s else s) * len(v)
  {
    var w := Scale(v, s);
    DotScaleBoth(v, s);
    NormLaw(len, w);
    NormLaw(len, v);
    ScaledRoot(len(w), len(v), s, Dot(w, w), Dot(v, v));
  }

  lemma DotScaleBoth(v: Vec, s: real)
    ensures Dot(Scale(v, s), Scale(v, s)) == (s * s) * Dot(v, v)
  {
  }

  /** The arithmetic of `NormScale` on plain reals: `a` and `l` are the
      roots of `s * s * d` and `d`. */
  lemma ScaledRoot(a: real, l: real, s: real, ww: real, d: real)
    requires a >= 0.0 && l >= 0.0
    requires a * a == ww && ww == (s * s) * d && d == l * l
    ensures a == (if s < 0.0 then -s else s) * l
  {
    var m := if s < 0.0 then -s else s;
    assert m * m == s * s;
    assert a * a == (m * l) * (m * l);
    ProductSign(m, l);
    SquareRootUnique(a, m * l);
  }

  /** A unit vector is its own normal. */
  lemma NormalOfUnit(len: Vec -> real, v: Vec)
    requires IsNorm(len) && IsUnit(v)
    ensures Normal(len, v) == v
  {
    NormLaw(len, v);
    var l := len(v);
    assert l * l == 1.0 && l >= 0.0;
    assert (l - 1.0) * (l + 1.0) == l * l - 1.0;
    ProductSign(l - 1.0, l + 1.0);
    assert l == 1.0;
  }

  /** Normalising keeps a vector orthogonal to whatever it was orthogonal to. */
  lemma NormalKeepsOrthogonal(len: Vec -> real, a: Vec, v: Vec)
    requires Dot(a, v) == 0.0
    ensures Dot(a, Normal(len, v)) == 0.0
  {
    if len(v) != 0.0 { DotScale(a, v, 1.0 / len(v)); }
  }

  /** The cross product is orthogonal to both factors. */
  lemma CrossOrthogonal(a: Vec, b: Vec)
    ensures Dot(Cross(a, b), a) == 0.0 && Dot(Cross(a, b), b) == 0.0
  {
  }

  lemma CrossAnticommutes(a: Vec, b: Vec)
    ensures Cross(b, a) == Neg(Cross(a, b))
    ensures Cross(Neg(a), b) == Neg(Cross(a, b)) && Cross(a, Neg(b)) == Neg(Cross(a, b))
  {
  }

  lemma CrossNegBoth(a: Vec, b: Vec)
    ensures Cross(Neg(a), Neg(b)) == Cross(a, b)
  {
  }

  /** Lagrange's identity: |a x b|^2 == |a|^2 |b|^2 - (a . b)^2. */
  lemma Lagrange(a: Vec, b: Vec)
    ensures Dot(Cross(a, b), Cross(a, b)) == Dot(a, a) * Dot(b, b) - Dot(a, b) * Dot(a, b)
  {
  }

  /** Crossing with a unit vector orthogonal to `a` keeps the length of `a`. */
  lemma CrossUnitKeepsLength(a: Vec, b: Vec)
    requires IsUnit(b) && Dot(a, b) == 0.0
    ensures Dot(Cross(a, b), Cross(a, b)) == Dot(a, a)
  {
    Lagrange(a, b);
  }

  /** Flipping a unit vector leaves it a unit vector. */
  lemma UnitFlip(n: Vec, s: real)
    requires IsUnit(n) && (s == 1.0 || s == -1.0)
    ensures IsUnit(Scale(n, s))
  {
    DotScale(n, Scale(n, s), s);
    DotScale(n, n, s);
  }

  /** The scalar triple product can be read with the cross product on
      either side. */
  lemma ScalarTriple(a: Vec, b: Vec, c: Vec)
    ensures Dot(Cross(a, b), c) == Dot(a, Cross(b, c))
  {
  }

  /** The vector triple product: (a x b) x c == b (a . c) - a (b . c). */
  lemma TripleProduct(a: Vec, b: Vec, c: Vec)
    ensures Cross(Cross(a, b), c) == Sub(Scale(b, Dot(a, c)), Scale(a, Dot(b, c)))
  {
    TripleProductX(a, b, c);
    TripleProductY(a, b, c);
    TripleProductZ(a, b, c);
  }

  lemma TripleProductX(a: Vec, b: Vec, c: Vec)
    ensures Cross(Cross(a, b), c).x == Sub(Scale(b, Dot(a, c)), Scale(a, Dot(b, c))).x
  {
    var p := Cross(a, b);
    TripleComponents(a.x, a.y, a.z, b.x, b.y, b.z, c.x, c.y, c.z, p.x, p.y, p.z, Dot(a, c), Dot(b, c));
  }

  lemma TripleProductY(a: Vec, b: Vec, c: Vec)
    ensures Cross(Cross(a, b), c).y == Sub(Scale(b, Dot(a, c)), Scale(a, Dot(b, c))).y
  {
    var p := Cross(a, b);
    TripleComponents(a.x, a.y, a.z, b.x, b.y, b.z, c.x, c.y, c.z, p.x, p.y, p.z, Dot(a, c), Dot(b, c));
  }

  lemma TripleProductZ(a: Vec, b: Vec, c: Vec)
    ensures Cross(Cross(a, b), c).z == Sub(Scale(b, Dot(a, c)), Scale(a, Dot(b, c))).z
  {
    var p := Cross(a, b);
    TripleComponents(a.x, a.y, a.z, b.x, b.y, b.z, c.x, c.y, c.z, p.x, p.y, p.z, Dot(a, c), Dot(b, c));
  }

  // The triple product over plain reals, p being a x b and d, e the dot
  // products a . c and b . c, so that the solver compares polynomials.
  lemma TripleComponents(a1: real, a2: real, a3: real, b1: real, b2: real, b3: real,
                         c1: real, c2: real, c3: real, p1: real, p2: real, p3: real, d: real, e: real)
    requires p1 == a2 * b3 - a3 * b2 && p2 == a3 * b1 - a1 * b3 && p3 == a1 * b2 - a2 * b1
    requires d == a1 * c1 + a2 * c2 + a3 * c3 && e == b1 * c1 + b2 * c2 + b3 * c3
    ensures p2 * c3 - p3 * c2 == b1 * d - a1 * e
    ensures p3 * c1 - p1 * c3 == b2 * d - a2 * e
    ensures p1 * c2 - p2 * c1 == b3 * d - a3 * e
  {
  }
}
