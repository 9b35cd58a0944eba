/** Frame synthesis of `quaternionFromDirectionAndUpvector`: from an aim
    direction and an up reference, the three rows of the joint's rotation
    matrix under one of six axis conventions. */
module Frame {
  import opened Geometry
  import opened Wrappers

  /** The rows of the rotation matrix: the joint's local X, Y and Z axes in world space. */
  datatype Basis = Basis(xAxis: Vec, yAxis: Vec, zAxis: Vec)

  datatype Axis = X | Y | Z

  function Row(b: Basis, a: Axis): Vec {
    match a
    case X => b.xAxis
    case Y => b.yAxis
    case Z => b.zAxis
  }

  /** The documented meaning of the `axisType` flag: for each value, the axis
      the aim vector lands on, then the axis the up vector lands on. */
  const Conventions: seq<string> := ["ZY", "ZX", "XZ", "XY", "YX", "YZ"]

  predicate IsAxisType(axisType: int) { 0 <= axisType < |Conventions| }

  function AxisNamed(c: char): Axis {
    if c == 'X' then X else if c == 'Y' then Y else Z
  }

  function AimAxis(axisType: int): Axis requires IsAxisType(axisType) {
    AxisNamed(Conventions[axisType][0])
  }

  function UpAxis(axisType: int): Axis requires IsAxisType(axisType) {
    AxisNamed(Conventions[axisType][1])
  }

  /** The axis that is neither of the two given ones. */
  function OtherAxis(a: Axis, b: Axis): Axis {
    if X != a && X != b then X else if Y != a && Y != b then Y else Z
  }

  /** v0: the normalised direction, negated when the aim axis is flipped. */
  function AimVector(len: Vec -> real, direction: Vec, aimNeg: bool): Vec {
    if aimNeg then Neg(Normal(len, direction)) else Normal(len, direction)
  }

  /** v1: the Gram-Schmidt step `((v0 ^ up.normal()) ^ v0).normal()`, negated
      when the up axis is flipped. */
  function UpVector(len: Vec -> real, direction: Vec, up: Vec, aimNeg: bool, upNeg: bool): Vec {
    var v0 := AimVector(len, direction, aimNeg);
    Scale(Normal(len, Cross(Cross(v0, Normal(len, up)), v0)), if upNeg then -1.0 else 1.0)
  }

  /** The third axis `(v1 ^ v0).normal()`, before any sign the convention gives it. */
  function SideVector(len: Vec -> real, v0: Vec, v1: Vec): Vec {
    Normal(len, Cross(v1, v0))
  }

  /** The matrix rows of `quaternionFromDirectionAndUpvector`; an axis type
      outside 0..5 assigns no row, and the source fails reading them. */
  function FrameAxes(len: Vec -> real, direction: Vec, up: Vec, axisType: int, aimNeg: bool, upNeg: bool)
    : (r: Option<Basis>)
    ensures r.Some? <==> IsAxisType(axisType)
    ensures r.Some? ==> Row(r.value, AimAxis(axisType)) == AimVector(len, direction, aimNeg)
    ensures r.Some? ==> Row(r.value, UpAxis(axisType)) == UpVector(len, direction, up, aimNeg, upNeg)
    ensures r.Some? ==>
      var v0, v1 := AimVector(len, direction, aimNeg), UpVector(len, direction, up, aimNeg, upNeg);
      var third := Row(r.value, OtherAxis(AimAxis(axisType), UpAxis(axisType)));
      third == SideVector(len, v0, v1) || third == Neg(SideVector(len, v0, v1))
  {
    var v0 := AimVector(len, direction, aimNeg);
    var v1 := UpVector(len, direction, up, aimNeg, upNeg);
    var side := SideVector(len, v0, v1);
    if axisType == 0 then Some(Basis(side, v1, v0))
    else if axisType == 1 then Some(Basis(v1, Neg(side), v0))
    else if axisType == 2 then Some(Basis(v0, side, v1))
    else if axisType == 3 then Some(Basis(v0, v1, Neg(side)))
    else if axisType == 4 then Some(Basis(v1, v0, side))
    else if axisType == 5 then Some(Basis(Neg(side), v0, v1))
    else None
  }

  /** `aimAxisNeg` flips only v0 and `upAxisNeg` flips only v1: the up vector
      does not depend on the aim sign. */
  lemma {:induction false} SignFlags(len: Vec -> real, direction: Vec, up: Vec, aimNeg: bool, upNeg: bool)
    ensures AimVector(len, direction, true) == Neg(AimVector(len, direction, false))
    ensures UpVector(len, direction, up, aimNeg, upNeg) == UpVector(len, direction, up, false, upNeg)
    ensures UpVector(len, direction, up, aimNeg, true) == Neg(UpVector(len, direction, up, aimNeg, false))
  {
    var d, u := Normal(len, direction), Normal(len, up);
    CrossAnticommutes(d, u);
    CrossNegBoth(Cross(d, u), d);
  }

  /** Whatever the inputs, v1 is orthogonal to v0 and the third axis to both. */
  lemma {:induction false} AxesOrthogonal(len: Vec -> real, direction: Vec, up: Vec, aimNeg: bool, upNeg: bool)
    ensures var v0, v1 := AimVector(len, direction, aimNeg), UpVector(len, direction, up, aimNeg, upNeg);
      Dot(v0, v1) == 0.0 && Dot(SideVector(len, v0, v1), v0) == 0.0 && Dot(SideVector(len, v0, v1), v1) == 0.0
  {
    var v0, v1 := AimVector(len, direction, aimNeg), UpVector(len, direction, up, aimNeg, upNeg);
    var c := Cross(Cross(v0, Normal(len, up)), v0);
    CrossOrthogonal(Cross(v0, Normal(len, up)), v0);
    NormalKeepsOrthogonal(len, v0, c);
    DotScale(v0, Normal(len, c), if upNeg then -1.0 else 1.0);
    CrossOrthogonal(v1, v0);
    NormalKeepsOrthogonal(len, v0, Cross(v1, v0));
    NormalKeepsOrthogonal(len, v1, Cross(v1, v0));
  }

  ghost predicate Orthonormal(a: Vec, b: Vec) {
    IsUnit(a) && IsUnit(b) && Dot(a, b) == 0.0
  }

  /** The rows form a rotation: unit, pairwise orthogonal and right-handed. */
  ghost predicate IsRotation(b: Basis) {
    Orthonormal(b.xAxis, b.yAxis) && IsUnit(b.zAxis) &&
    Dot(b.xAxis, b.zAxis) == 0.0 && Dot(b.yAxis, b.zAxis) == 0.0 &&
    Cross(b.xAxis, b.yAxis) == b.zAxis
  }

  /** For orthonormal v0 and v1, w = v1 x v0 completes them to an
      orthonormal triad, and crossing w with either gives back the other. */
  lemma Triad(v0: Vec, v1: Vec)
    requires Orthonormal(v0, v1)
    ensures var w := Cross(v1, v0);
      && IsUnit(w) && Dot(w, v0) == 0.0 && Dot(w, v1) == 0.0
      && Cross(w, v1) == v0 && Cross(w, v0) == Neg(v1)
  {
    Lagrange(v1, v0);
    CrossOrthogonal(v1, v0);
    TripleProduct(v1, v0, v1);
    TripleProduct(v1, v0, v0);
  }

  /** The six conventions built from a triad (v0, v1, w) with v1 x v0 == w
      are right-handed orthonormal frames. */
  lemma SixConventions(v0: Vec, v1: Vec, w: Vec)
    requires Orthonormal(v0, v1) && IsUnit(w) && Dot(w, v0) == 0.0 && Dot(w, v1) == 0.0
    requires Cross(v1, v0) == w && Cross(w, v1) == v0 && Cross(w, v0) == Neg(v1)
    ensures && IsRotation(Basis(w, v1, v0)) && IsRotation(Basis(v1, Neg(w), v0))
            && IsRotation(Basis(v0, w, v1)) && IsRotation(Basis(v0, v1, Neg(w)))
            && IsRotation(Basis(v1, v0, w)) && IsRotation(Basis(Neg(w), v0, v1))
  {
    PlainConventions(v0, v1, w);
    NegatedConventions(v0, v1, w);
  }

  /** The three conventions that use w as it is. */
  lemma PlainConventions(v0: Vec, v1: Vec, w: Vec)
    requires Orthonormal(v0, v1) && IsUnit(w) && Dot(w, v0) == 0.0 && Dot(w, v1) == 0.0
    requires Cross(v1, v0) == w && Cross(w, v1) == v0 && Cross(w, v0) == Neg(v1)
    ensures IsRotation(Basis(w, v1, v0)) && IsRotation(Basis(v0, w, v1)) && IsRotation(Basis(v1, v0, w))
  {
    CrossAnticommutes(w, v0);
    DotNeg(w, v0);
    DotNeg(w, v1);
    assert Neg(Neg(v1)) == v1;
  }

  /** The three conventions that use -w. */
  lemma NegatedConventions(v0: Vec, v1: Vec, w: Vec)
    requires Orthonormal(v0, v1) && IsUnit(w) && Dot(w, v0) == 0.0 && Dot(w, v1) == 0.0
    requires Cross(v1, v0) == w && Cross(w, v1) == v0 && Cross(w, v0) == Neg(v1)
    ensures IsRotation(Basis(v1, Neg(w), v0)) && IsRotation(Basis(v0, v1, Neg(w))) && IsRotation(Basis(Neg(w), v0, v1))
  {
    CrossAnticommutes(v1, v0);
    CrossAnticommutes(w, v1);
    CrossAnticommutes(w, v0);
    DotNeg(w, w);
    DotNeg(Neg(w), w);
    DotNeg(w, v0);
    DotNeg(w, v1);
    assert Neg(Neg(v0)) == v0 && Neg(Neg(v1)) == v1;
  }

  /** For orthonormal v0 and v1, the third axis is exactly v1 x v0 and each of
      the six conventions is a right-handed orthonormal frame. */
  lemma ConventionsAreRightHanded(len: Vec -> real, v0: Vec, v1: Vec)
    requires IsNorm(len) && Orthonormal(v0, v1)
    ensures SideVector(len, v0, v1) == Cross(v1, v0)
    ensures var w := Cross(v1, v0);
      && IsRotation(Basis(w, v1, v0)) && IsRotation(Basis(v1, Neg(w), v0))
      && IsRotation(Basis(v0, w, v1)) && IsRotation(Basis(v0, v1, Neg(w)))
      && IsRotation(Basis(v1, v0, w)) && IsRotation(Basis(Neg(w), v0, v1))
  {
    Triad(v0, v1);
    NormalOfUnit(len, Cross(v1, v0));
    SixConventions(v0, v1, Cross(v1, v0));
  }

  /** v0 is a unit vector whenever the direction is non-zero. */
  lemma AimVectorUnit(len: Vec -> real, direction: Vec, aimNeg: bool)
    requires IsNorm(len) && direction != Zero
    ensures IsUnit(AimVector(len, direction, aimNeg))
  {
    var d := Normal(len, direction);
    NormalOfNonZero(len, direction);
    DotNeg(d, d);
    DotNeg(Neg(d), d);
    assert Neg(Neg(d)) == d;
  }

  /** v1 is a unit vector whenever the direction is non-zero and not parallel
      to the up reference. */
  lemma {:induction false} UpVectorUnit(len: Vec -> real, direction: Vec, up: Vec, aimNeg: bool, upNeg: bool)
    requires IsNorm(len) && direction != Zero
    requires Cross(Normal(len, direction), Normal(len, up)) != Zero
    ensures IsUnit(UpVector(len, direction, up, aimNeg, upNeg))
  {
    var d, u := Normal(len, direction), Normal(len, up);
    var v0 := AimVector(len, direction, aimNeg);
    AimVectorUnit(len, direction, aimNeg);
    var a := Cross(v0, u);
    CrossAnticommutes(d, u);
    assert a == Cross(d, u) || a == Neg(Cross(d, u));
    assert a != Zero;
    DotSelfZero(a);
    CrossOrthogonal(v0, u);
    var c := Cross(a, v0);
    CrossUnitKeepsLength(a, v0);
    DotSelfZero(c);
    NormalOfNonZero(len, c);
    UnitFlip(Normal(len, c), if upNeg then -1.0 else 1.0);
  }

  /** v1 (unflipped) is the Gram-Schmidt projection of the normalised up
      reference onto the plane orthogonal to v0, normalised: what is left of
      the up reference once its component along v0 is removed. */
  lemma UpVectorIsProjection(len: Vec -> real, direction: Vec, up: Vec, aimNeg: bool)
    requires IsNorm(len) && direction != Zero
    ensures var v0, u := AimVector(len, direction, aimNeg), Normal(len, up);
      UpVector(len, direction, up, aimNeg, false) == Normal(len, Sub(u, Scale(v0, Dot(u, v0))))
  {
    var v0, u := AimVector(len, direction, aimNeg), Normal(len, up);
    AimVectorUnit(len, direction, aimNeg);
    TripleProduct(v0, u, v0);
    assert Scale(u, Dot(v0, v0)) == u;
    var n := Normal(len, Cross(Cross(v0, u), v0));
    assert Scale(n, 1.0) == n;
  }

  /** v1 (unflipped) leans toward the up reference: the joint's up axis
      follows the side of the surface the normal points to. */
  lemma {:induction false} UpVectorLeansToUp(len: Vec -> real, direction: Vec, up: Vec, aimNeg: bool)
    requires IsNorm(len) && direction != Zero
    requires Cross(Normal(len, direction), Normal(len, up)) != Zero
    ensures Dot(UpVector(len, direction, up, aimNeg, false), Normal(len, up)) > 0.0
  {
    var d, u := Normal(len, direction), Normal(len, up);
    var v0 := AimVector(len, direction, aimNeg);
    AimVectorUnit(len, direction, aimNeg);
    var a := Cross(v0, u);
    CrossAnticommutes(d, u);
    assert a == Cross(d, u) || a == Neg(Cross(d, u));
    assert a != Zero;
    DotSelfZero(a);
    var w := Cross(a, v0);
    ScalarTriple(a, v0, u);
    assert Dot(w, u) == Dot(a, a) > 0.0;
    CrossOrthogonal(v0, u);
    CrossUnitKeepsLength(a, v0);
    DotSelfZero(w);
    NormalOfNonZero(len, w);
    var s := 1.0 / len(w);
    assert s > 0.0;
    DotScale(w, u, s);
    ProductSign(s, Dot(w, u));
    assert Dot(Normal(len, w), u) > 0.0;
    assert Scale(Normal(len, w), 1.0) == Normal(len, w);
    assert UpVector(len, direction, up, aimNeg, false) == Normal(len, w);
  }

  /** When the direction is non-zero and not parallel to the up reference,
      every valid axis type yields a right-handed orthonormal frame, the
      matrix the quaternion is built from. */
  lemma FrameIsRotation(len: Vec -> real, direction: Vec, up: Vec, axisType: int, aimNeg: bool, upNeg: bool)
    requires IsNorm(len) && IsAxisType(axisType)
    requires direction != Zero
    requires Cross(Normal(len, direction), Normal(len, up)) != Zero
    ensures FrameAxes(len, direction, up, axisType, aimNeg, upNeg).Some?
    ensures IsRotation(FrameAxes(len, direction, up, axisType, aimNeg, upNeg).value)
  {
    var v0, v1 := AimVector(len, direction, aimNeg), UpVector(len, direction, up, aimNeg, upNeg);
    AimVectorUnit(len, direction, aimNeg);
    UpVectorUnit(len, direction, up, aimNeg, upNeg);
    AxesOrthogonal(len, direction, up, aimNeg, upNeg);
    ConventionsAreRightHanded(len, v0, v1);
  }
}
