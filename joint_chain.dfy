/** The joint-chain loop of the `createJointsOnMeshComponents` command: one
    joint per chain point, skipping the root and/or the tip on request, each
    given its rotation relative to the joint created before it. Creating the
    joint in the scene is abstracted to recording (index, position, rotation). */
module JointChain {
  import opened Geometry
  import opened Wrappers
  import opened Frame
  import opened Quaternions
  import opened Resample
  import opened ChainDirection

  /** The command's flags. */
  datatype Flags = Flags(setOnJointOrient: bool, createRootJoint: bool, createTipJoint: bool,
                         createType: int, createCount: int, axisType: int,
                         aimAxisNeg: bool, upAxisNeg: bool)

  /** The value each flag takes when the command line does not set it. */
  const DefaultFlags := Flags(false, true, true, 0, 0, 3, false, false)

  /** A created joint: the chain point it stands on, its position, its
      rotation relative to its parent, and its rotation in world space. */
  datatype Joint = Joint(index: nat, position: Point, rotation: Quat, worldRotation: Quat)

  /** The created joints in creation order, and the index of the chain's
      root joint (the first one created), if any. */
  datatype Chain = Chain(joints: seq<Joint>, root: Option<nat>)

  /** `MQuaternion.setValue` from a rotation matrix never yields the zero
      quaternion, so the result can be inverted. */
  ghost predicate InvertibleSource(fromMatrix: Basis -> Quat) {
    forall b :: NormSq(fromMatrix(b)) != 0.0
  }

  /** `quaternionFromDirectionAndUpvector`: the matrix rows of the frame,
      turned into a quaternion by `fromMatrix`. An axis type outside 0..5
      leaves the rows unassigned, and reading them raises. */
  function JointWorldRotation(len: Vec -> real, fromMatrix: Basis -> Quat, flags: Flags, direction: Vec, up: Vec)
    : (q: Result<Quat>)
    ensures q.Ok? <==> IsAxisType(flags.axisType)
    ensures q.Err? ==> q.error == UnboundLocalError
  {
    match FrameAxes(len, direction, up, flags.axisType, flags.aimAxisNeg, flags.upAxisNeg)
    case Some(b) => Ok(fromMatrix(b))
    case None => Err(UnboundLocalError)
  }

  /** The world rotation of a joint is that of a right-handed orthonormal
      frame whose aim and up rows are v0 and v1, whenever the direction is
      non-zero and not parallel to the up reference. */
  lemma WorldRotationOfFrame(len: Vec -> real, fromMatrix: Basis -> Quat, flags: Flags, direction: Vec, up: Vec)
    requires IsNorm(len) && IsAxisType(flags.axisType)
    requires direction != Zero
    requires Cross(Normal(len, direction), Normal(len, up)) != Zero
    ensures var q := JointWorldRotation(len, fromMatrix, flags, direction, up);
      var b := FrameAxes(len, direction, up, flags.axisType, flags.aimAxisNeg, flags.upAxisNeg);
      && q.Ok? && b.Some? && q.value == fromMatrix(b.value) && IsRotation(b.value)
      && Row(b.value, AimAxis(flags.axisType)) == AimVector(len, direction, flags.aimAxisNeg)
      && Row(b.value, UpAxis(flags.axisType)) == UpVector(len, direction, up, flags.aimAxisNeg, flags.upAxisNeg)
  {
    FrameIsRotation(len, direction, up, flags.axisType, flags.aimAxisNeg, flags.upAxisNeg);
  }

  // ---------------------------------------------------------------------
  // Which chain points get a joint

  /** Point `i` of `count` gets a joint unless it is the root and root
      joints are off, or it is the tip and tip joints are off. */
  predicate Emits(flags: Flags, count: nat, i: nat) {
    !(i == 0 && !flags.createRootJoint) && !(i == count - 1 && !flags.createTipJoint)
  }

  /** The indices below `k` that get a joint, in increasing order. */
  function EmittedBelow(flags: Flags, count: nat, k: nat): (ids: seq<nat>)
    ensures |ids| <= k
  {
    if k == 0 then [] else EmittedBelow(flags, count, k - 1) + (if Emits(flags, count, k - 1) then [k - 1] else [])
  }

  /** The indices of all chain points that get a joint. */
  function Emitted(flags: Flags, count: nat): seq<nat> {
    EmittedBelow(flags, count, count)
  }

  /** The indices below `k` that get a joint are exactly those the flags let
      through, each once, in strictly increasing order. */
  lemma {:induction false} EmittedBelowOrdered(flags: Flags, count: nat, k: nat)
    ensures forall m :: 0 <= m < |EmittedBelow(flags, count, k)| ==>
      EmittedBelow(flags, count, k)[m] < k && Emits(flags, count, EmittedBelow(flags, count, k)[m])
    ensures forall i :: 0 <= i < k && Emits(flags, count, i) ==> i in EmittedBelow(flags, count, k)
    ensures forall m1, m2 :: 0 <= m1 < m2 < |EmittedBelow(flags, count, k)| ==>
      EmittedBelow(flags, count, k)[m1] < EmittedBelow(flags, count, k)[m2]
  {
    if k > 0 {
      EmittedBelowOrdered(flags, count, k - 1);
    }
  }

  /** Scanning further never loses a joint. */
  lemma {:induction false} EmittedBelowGrows(flags: Flags, count: nat, k1: nat, k2: nat)
    requires k1 <= k2
    ensures |EmittedBelow(flags, count, k1)| <= |EmittedBelow(flags, count, k2)|
    decreases k2
  {
    if k1 < k2 {
      EmittedBelowGrows(flags, count, k1, k2 - 1);
    }
  }

  /** How many of the first `k` points get a joint. */
  lemma {:induction false} EmittedBelowCount(flags: Flags, count: nat, k: nat)
    requires 2 <= count && k <= count
    ensures |EmittedBelow(flags, count, k)| ==
      k - (if k >= 1 && !flags.createRootJoint then 1 else 0) - (if k == count && !flags.createTipJoint then 1 else 0)
  {
    if k > 0 {
      EmittedBelowCount(flags, count, k - 1);
    }
  }

  /** With at least two points, the loop creates one joint per point, less
      one for a skipped root and one for a skipped tip. */
  lemma EmittedCount(flags: Flags, count: nat)
    requires count >= 2
    ensures |Emitted(flags, count)| ==
      count - (if flags.createRootJoint then 0 else 1) - (if flags.createTipJoint then 0 else 1)
  {
    EmittedBelowCount(flags, count, count);
  }

  /** The first joint created, which becomes the chain root, stands on the
      first point, or on the second when root joints are off. */
  lemma EmittedFirst(flags: Flags, count: nat)
    requires count >= 2 && |Emitted(flags, count)| > 0
    ensures Emitted(flags, count)[0] == if flags.createRootJoint then 0 else 1
  {
    var ids := EmittedBelow(flags, count, count);
    assert ids == Emitted(flags, count);
    EmittedBelowOrdered(flags, count, count);
    var first := if flags.createRootJoint then 0 else 1;
    assert ids[0] < count && Emits(flags, count, ids[0]);
    if ids[0] > first {
      // Then `first` is emitted too, so it would come before `ids[0]`.
      assert first < ids[0] < count && Emits(flags, count, first);
      assert false;
    }
  }

  // ---------------------------------------------------------------------
  // The loop

  /** The world rotation of the joint created before joint `k` of `joints`,
      or the identity for the first joint. */
  function ParentWorld(joints: seq<Joint>, k: nat): Quat
    requires k <= |joints|
  {
    if k == 0 then Identity else joints[k - 1].worldRotation
  }

  /** Joint `k` of `joints` was created for point `ids[k]`: it stands on the
      point, and its rotation divides out the world rotation of the joint
      created before it. */
  ghost predicate JointAt(pos: seq<Point>, ids: seq<nat>, joints: seq<Joint>, k: nat)
    requires k < |joints| == |ids|
  {
    && ids[k] < |pos|
    && joints[k].index == ids[k]
    && joints[k].position == pos[ids[k]]
    && NormSq(ParentWorld(joints, k)) != 0.0
    && joints[k].rotation == Mul(joints[k].worldRotation, Inverse(ParentWorld(joints, k)))
  }

  /** The world rotation of joint `k` is that of the frame at its point. */
  ghost predicate WorldAt(len: Vec -> real, fromMatrix: Basis -> Quat, flags: Flags,
                          nml: seq<Vec>, dirs: seq<Vec>, ids: seq<nat>, joints: seq<Joint>, k: nat)
    requires k < |joints| == |ids| && |nml| == |dirs|
  {
    ids[k] < |dirs| && JointWorldRotation(len, fromMatrix, flags, dirs[ids[k]], nml[ids[k]]) == Ok(joints[k].worldRotation)
  }

  /** `joints` are the joints created for the points `ids` of the chain. */
  ghost predicate JointsFor(len: Vec -> real, fromMatrix: Basis -> Quat, flags: Flags,
                            pos: seq<Point>, nml: seq<Vec>, dirs: seq<Vec>, ids: seq<nat>, joints: seq<Joint>)
    requires |nml| == |dirs| == |pos|
  {
    && |joints| == |ids|
    && (forall k {:trigger JointAt(pos, ids, joints, k)} :: 0 <= k < |joints| ==> JointAt(pos, ids, joints, k))
    && (forall k {:trigger WorldAt(len, fromMatrix, flags, nml, dirs, ids, joints, k)} :: 0 <= k < |joints| ==>
          WorldAt(len, fromMatrix, flags, nml, dirs, ids, joints, k))
  }

  /** Appending the joint for point `i`, whose rotation divides out the world
      rotation of the last joint, keeps the chain's facts. */
  lemma AppendJoint(len: Vec -> real, fromMatrix: Basis -> Quat, flags: Flags,
                    pos: seq<Point>, nml: seq<Vec>, dirs: seq<Vec>, ids: seq<nat>, joints: seq<Joint>, i: nat, world: Quat)
    requires |nml| == |dirs| == |pos| && i < |pos|
    requires JointsFor(len, fromMatrix, flags, pos, nml, dirs, ids, joints)
    requires NormSq(ParentWorld(joints, |joints|)) != 0.0
    requires JointWorldRotation(len, fromMatrix, flags, dirs[i], nml[i]) == Ok(world)
    ensures JointsFor(len, fromMatrix, flags, pos, nml, dirs, ids + [i],
                      joints + [Joint(i, pos[i], Mul(world, Inverse(ParentWorld(joints, |joints|))), world)])
  {
    var j := Joint(i, pos[i], Mul(world, Inverse(ParentWorld(joints, |joints|))), world);
    assert ParentWorld(joints + [j], |joints|) == ParentWorld(joints, |joints|);
    assert JointAt(pos, ids + [i], joints + [j], |joints|);
    assert WorldAt(len, fromMatrix, flags, nml, dirs, ids + [i], joints + [j], |joints|);
    forall k | 0 <= k < |joints|
      ensures JointAt(pos, ids + [i], joints + [j], k)
    {
      assert JointAt(pos, ids, joints, k);
      assert ParentWorld(joints + [j], k) == ParentWorld(joints, k);
    }
    forall k | 0 <= k < |joints|
      ensures WorldAt(len, fromMatrix, flags, nml, dirs, ids + [i], joints + [j], k)
    {
      assert WorldAt(len, fromMatrix, flags, nml, dirs, ids, joints, k);
    }
  }

  /** The joint-chain loop of `doIt` over `|pos|` points, with `nml` the
      repaired normals (the up references) and `dirs` the directions. It
      fails exactly when a joint is due but the axis type names no convention. */
  method CreateJointChain(len: Vec -> real, fromMatrix: Basis -> Quat, flags: Flags,
                          pos: seq<Point>, nml: seq<Vec>, dirs: seq<Vec>)
    returns (r: Result<Chain>)
    requires |nml| == |dirs| == |pos|
    requires InvertibleSource(fromMatrix)
    ensures r.Err? <==> !IsAxisType(flags.axisType) && |Emitted(flags, |pos|)| > 0
    ensures r.Err? ==> r.error == UnboundLocalError
    ensures r.Ok? ==>
      var ids := Emitted(flags, |pos|);
      && JointsFor(len, fromMatrix, flags, pos, nml, dirs, ids, r.value.joints)
      && r.value.root == if |ids| == 0 then None else Some(ids[0])
  {
    var parent := Identity;
    var joints: seq<Joint> := [];
    var root: Option<nat> := None;
    for i := 0 to |pos|
      invariant JointsFor(len, fromMatrix, flags, pos, nml, dirs, EmittedBelow(flags, |pos|, i), joints)
      invariant parent == ParentWorld(joints, |joints|) && NormSq(parent) != 0.0
      invariant root == if |joints| == 0 then None else Some(EmittedBelow(flags, |pos|, i)[0])
      invariant !IsAxisType(flags.axisType) ==> |joints| == 0
    {
      if i == 0 && !flags.createRootJoint {
        assert EmittedBelow(flags, |pos|, i + 1) == EmittedBelow(flags, |pos|, i);
        continue;
      }
      if i == |pos| - 1 && !flags.createTipJoint {
        assert EmittedBelow(flags, |pos|, i + 1) == EmittedBelow(flags, |pos|, i);
        continue;
      }
      var world := JointWorldRotation(len, fromMatrix, flags, dirs[i], nml[i]);
      if world.Err? {
        assert |EmittedBelow(flags, |pos|, i + 1)| > 0;
        EmittedBelowGrows(flags, |pos|, i + 1, |pos|);
        return Err(UnboundLocalError);
      }
      var joint := Joint(i, pos[i], Mul(world.value, Inverse(parent)), world.value);
      assert EmittedBelow(flags, |pos|, i + 1) == EmittedBelow(flags, |pos|, i) + [i];
      AppendJoint(len, fromMatrix, flags, pos, nml, dirs, EmittedBelow(flags, |pos|, i), joints, i, world.value);
      joints := joints + [joint];
      parent := world.value;
      if root.None? {
        root := Some(i);
      }
    }
    return Ok(Chain(joints, root));
  }

  /** Rotations compose back along the chain: the first joint's rotation is
      its world rotation (its parent is the identity, whether or not the root
      point was skipped), and every later joint's rotation times the world
      rotation of the joint before it gives its own world rotation. */
  lemma LocalTimesParentIsWorld(len: Vec -> real, fromMatrix: Basis -> Quat, flags: Flags,
                                pos: seq<Point>, nml: seq<Vec>, dirs: seq<Vec>, ids: seq<nat>, joints: seq<Joint>)
    requires |nml| == |dirs| == |pos|
    requires JointsFor(len, fromMatrix, flags, pos, nml, dirs, ids, joints)
    ensures |joints| > 0 ==> joints[0].rotation == joints[0].worldRotation
    ensures forall k :: 0 < k < |joints| ==> Mul(joints[k].rotation, joints[k - 1].worldRotation) == joints[k].worldRotation
  {
    if |joints| > 0 {
      FirstIsWorld(len, fromMatrix, flags, pos, nml, dirs, ids, joints);
    }
    forall k | 0 < k < |joints|
      ensures Mul(joints[k].rotation, joints[k - 1].worldRotation) == joints[k].worldRotation
    {
      LinkedAt(len, fromMatrix, flags, pos, nml, dirs, ids, joints, k);
    }
  }

  /** Joint `k` stands on chain point `ids[k]`, and there is one joint per
      listed point. */
  lemma JointsIndexed(len: Vec -> real, fromMatrix: Basis -> Quat, flags: Flags,
                      pos: seq<Point>, nml: seq<Vec>, dirs: seq<Vec>, ids: seq<nat>, joints: seq<Joint>)
    requires |nml| == |dirs| == |pos|
    requires JointsFor(len, fromMatrix, flags, pos, nml, dirs, ids, joints)
    ensures |joints| == |ids|
    ensures forall k :: 0 <= k < |ids| ==> ids[k] < |pos| && joints[k].index == ids[k] && joints[k].position == pos[ids[k]]
  {
    forall k | 0 <= k < |ids|
      ensures ids[k] < |pos| && joints[k].index == ids[k] && joints[k].position == pos[ids[k]]
    {
      assert JointAt(pos, ids, joints, k);
    }
  }

  /** What a finished chain over the points `ids` looks like from outside:
      one joint per point, in order, rooted at the first, with each joint's
      rotation relative to the joint before it. */
  ghost predicate LinkedChain(ids: seq<nat>, c: Chain) {
    && |c.joints| == |ids|
    && (forall k :: 0 <= k < |ids| ==> c.joints[k].index == ids[k])
    && c.root == (if |ids| == 0 then None else Some(ids[0]))
    && (|ids| > 0 ==> c.joints[0].rotation == c.joints[0].worldRotation)
    && (forall k :: 0 < k < |ids| ==> Mul(c.joints[k].rotation, c.joints[k - 1].worldRotation) == c.joints[k].worldRotation)
  }

  /** The joints the loop creates form a linked chain. */
  lemma ChainIsLinked(len: Vec -> real, fromMatrix: Basis -> Quat, flags: Flags,
                      pos: seq<Point>, nml: seq<Vec>, dirs: seq<Vec>, ids: seq<nat>, c: Chain)
    requires |nml| == |dirs| == |pos|
    requires JointsFor(len, fromMatrix, flags, pos, nml, dirs, ids, c.joints)
    requires c.root == if |ids| == 0 then None else Some(ids[0])
    ensures LinkedChain(ids, c)
  {
    JointsIndexed(len, fromMatrix, flags, pos, nml, dirs, ids, c.joints);
    LocalTimesParentIsWorld(len, fromMatrix, flags, pos, nml, dirs, ids, c.joints);
  }

  lemma FirstIsWorld(len: Vec -> real, fromMatrix: Basis -> Quat, flags: Flags,
                     pos: seq<Point>, nml: seq<Vec>, dirs: seq<Vec>, ids: seq<nat>, joints: seq<Joint>)
    requires |nml| == |dirs| == |pos| && |joints| > 0
    requires JointsFor(len, fromMatrix, flags, pos, nml, dirs, ids, joints)
    ensures joints[0].rotation == joints[0].worldRotation
  {
    assert JointAt(pos, ids, joints, 0);
    InverseOfIdentity();
    MulIdentity(joints[0].worldRotation);
  }

  lemma LinkedAt(len: Vec -> real, fromMatrix: Basis -> Quat, flags: Flags,
                 pos: seq<Point>, nml: seq<Vec>, dirs: seq<Vec>, ids: seq<nat>, joints: seq<Joint>, k: nat)
    requires |nml| == |dirs| == |pos| && 0 < k < |joints|
    requires JointsFor(len, fromMatrix, flags, pos, nml, dirs, ids, joints)
    ensures Mul(joints[k].rotation, joints[k - 1].worldRotation) == joints[k].worldRotation
  {
    assert JointAt(pos, ids, joints, k);
    LocalTimesParent(joints[k - 1], joints[k]);
  }

  lemma LocalTimesParent(parent: Joint, joint: Joint)
    requires NormSq(parent.worldRotation) != 0.0
    requires joint.rotation == Mul(joint.worldRotation, Inverse(parent.worldRotation))
    ensures Mul(joint.rotation, parent.worldRotation) == joint.worldRotation
  {
    DivideThenMultiply(joint.worldRotation, parent.worldRotation);
  }

  // ---------------------------------------------------------------------
  // The whole command

  /** The number of chain points the loop walks: the components themselves,
      or the evenly resampled chain of `createCount + 2` points (two when the
      count is negative). */
  function PointCount(flags: Flags, components: nat): nat {
    if flags.createType == 1 then (if flags.createCount < 0 then 0 else flags.createCount) + 2 else components
  }

  /** `doIt` from the components' positions and normals on: the count check,
      the optional even resampling, the directions with the normal repair,
      and the joint-chain loop. `parallel` is `MVector.isParallel` and
      `fromMatrix` is `MQuaternion.setValue`. The ghost results are the chain
      the loop walks: its points and normals (resampled or not), its
      directions and its repaired normals, the up references of the frames. */
  method DoIt(len: Vec -> real, parallel: (Vec, Vec) -> bool, fromMatrix: Basis -> Quat, flags: Flags,
              pos: seq<Point>, nml: seq<Vec>)
    returns (r: Result<Chain>, ghost points: seq<Point>, ghost normals: seq<Vec>, ghost dirs: seq<Vec>, ghost up: seq<Vec>)
    requires IsNorm(len) && InvertibleSource(fromMatrix)
    requires |nml| == |pos|
    ensures |pos| < 2 ==> r == Err(TooFewComponents)
    ensures |pos| >= 2 && flags.createType == 1 && flags.createCount == -1 ==> r == Err(ZeroDivisionError)
    ensures |pos| >= 2 && flags.createType == 1 && flags.createCount >= 1 && PathLength(len, pos) == 0.0
      ==> r == Err(IndexError)
    ensures r.Ok? <==>
      && |pos| >= 2
      && (flags.createType == 1 ==> flags.createCount != -1 && (flags.createCount >= 1 ==> PathLength(len, pos) > 0.0))
      && (IsAxisType(flags.axisType) || |Emitted(flags, PointCount(flags, |pos|))| == 0)
    ensures (&& |pos| >= 2
             && (flags.createType == 1 ==> flags.createCount != -1 && (flags.createCount >= 1 ==> PathLength(len, pos) > 0.0))
             && !IsAxisType(flags.axisType) && |Emitted(flags, PointCount(flags, |pos|))| > 0)
      ==> r == Err(UnboundLocalError)
    ensures r.Ok? ==>
      && |pos| >= 2
      && (flags.createType != 1 ==> points == pos && normals == nml)
      && (flags.createType == 1 ==> ResampledChain(len, flags.createCount, pos, nml, Samples(points, normals)))
      && |points| == |normals| == PointCount(flags, |pos|)
    ensures r.Ok? ==>
      && |points| == |normals| >= 2
      && dirs == Directions(len, points)
      && up == RepairUpTo(len, parallel, dirs, normals, |normals|)
      && JointsFor(len, fromMatrix, flags, points, up, dirs, Emitted(flags, |points|), r.value.joints)
      && LinkedChain(Emitted(flags, |points|), r.value)
  {
    points, normals, dirs, up := pos, nml, [], [];
    if |pos| < 2 {
      return Err(TooFewComponents), points, normals, dirs, up;
    }
    var chainPos, chainNml := pos, nml;
    if flags.createType == 1 {
      var resampled := RecomputeIntervalPosAndNml(len, flags.createCount, pos, nml);
      if resampled.Err? {
        return Err(resampled.error), points, normals, dirs, up;
      }
      chainPos, chainNml := resampled.value.positions, resampled.value.normals;
    }
    assert |chainPos| == |chainNml| == PointCount(flags, |pos|) >= 2;
    var upArray := new Vec[|chainNml|](i requires 0 <= i < |chainNml| => chainNml[i]);
    assert upArray[..] == chainNml;
    // There are always at least two chain points here, so the direction
    // list is built without an error.
    var directions := GetChainPoiDirection(len, parallel, upArray, chainPos);
    r := CreateJointChain(len, fromMatrix, flags, chainPos, upArray[..], directions.value);
    points, normals, dirs, up := chainPos, chainNml, directions.value, upArray[..];
    if r.Ok? {
      ChainIsLinked(len, fromMatrix, flags, points, up, dirs, Emitted(flags, |points|), r.value);
    }
  }
}
