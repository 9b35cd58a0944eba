# createJointsOnMeshComponents: a verified model of the joint-chain pipeline

The Maya command `createJointsOnMeshComponents` turns an ordered selection of
mesh components, each giving a position and a normal, into a chain of joints.
This project models the part of the command that is pure computation:

- the optional **even resampling** of the chain by arc length (`RecomputeIntervalPosAndNml`).
  It builds a cumulative length table and looks each evenly spaced target up
  with `binarySearchTree`. It then interpolates position and normal on the
  segment it finds with `lerp_MPoint` / `lerp_MVector`, and keeps both endpoints;
- the **direction list** and the **in-place repair of normals** that are parallel
  to their direction (`GetChainPoiDirection`);
- the **frame synthesis** of `quaternionFromDirectionAndUpvector`: a Gram-Schmidt
  step followed by one of six axis conventions, as matrix rows;
- the **joint-chain loop** of `doIt`. It skips the root and/or the tip on
  request and computes each joint's local rotation as
  `global * parentGlobal.inverse()`. The parent rotation is updated only when a
  joint is created. The first joint created is recorded as the chain root;
- the small helpers `getDistanceAtoB`, `toMelString`, `lerp_MVector` and `lerp_MPoint`.

Floats are modelled as exact reals. Maya's vector and quaternion types become
datatypes (`Geometry.Vec`, `Geometry.Point`, `Quaternions.Quat`). The Euclidean
length, which needs a square root, is a parameter `len` fixed by its law
(`len(v) >= 0` and `len(v)^2 == v . v`). `MVector.isParallel` (`parallel`) and
`MQuaternion.setValue` from a matrix (`fromMatrix`) are parameters too. The
exceptions Python raises become `Err` values of `Wrappers.PyError`.

Files and modules:

| file | module | models |
|---|---|---|
| wrappers.dfy | Wrappers | `Option`, `Result` and the exceptions the core raises |
| geometry.dfy | Geometry | MVector/MPoint arithmetic, `normal()`, the cross product and its identities |
| util.dfy | Util | `getDistanceAtoB`, the two lerps, `toMelString`, `binarySearchTree` |
| frame.dfy | Frame | the rows of `quaternionFromDirectionAndUpvector` |
| quaternion.dfy | Quaternions | MQuaternion product, inverse, identity and the group laws the chain needs |
| resample.dfy | Resample | `RecomputeIntervalPosAndNml` |
| direction.dfy | ChainDirection | `GetChainPoiDirection` |
| joint_chain.dfy | JointChain | the flags, the joint-chain loop and `doIt` from the positions and normals on |

The command's flag defaults (lines 113-120 of the plug-in) are the constant
`JointChain.DefaultFlags`. They are: no joint orient, root and tip joints on,
create type 0, count 0, axis type 3 (`XY`), no negated axes.

Behaviour of the code that the model keeps as it is:

- `rest_parent_g_quat` is reassigned only after a joint is created
  (plug-ins/create_joints_on_mesh_components.py:90). A skipped root point
  therefore does not take part in the chain rotation: the joint after it is
  relative to the identity.
- `quaternionFromDirectionAndUpvector` (scripts/util/util.py:84-120) checks
  nothing for a direction that is zero or parallel to its up vector. The
  model does not fail there either: `Frame.FrameIsRotation` gives a rotation
  only when the direction is non-zero and not parallel.
- `MVector.normal()` leaves a zero vector unchanged, and `Geometry.Normal`
  does the same.
- On a chain of length zero, the resampler reads past the end of the length
  table (plug-ins/create_joints_on_mesh_components.py:235) only when
  `createCount >= 1`. That is `Err(IndexError)` here. With `createCount <= 0`
  (other than -1, which divides by zero) it succeeds with the two endpoints.

## Model

| member | source | states |
|---|---|---|
| Util.Distance | scripts/util/util.py:126-127 | the distance is non-negative, and zero exactly when the two points coincide |
| Util.DistanceSymmetric | scripts/util/util.py:126-127 | the distance from a to b equals the distance from b to a |
| Util.LerpVec | scripts/util/util.py:150-151 | t = 0 gives a, t = 1 gives b, and lerping a vector with itself gives it back |
| Util.LerpPoint | scripts/util/util.py:153-158 | the same three facts for points, with w interpolated like x, y and z |
| Util.LerpPointDisplacement | scripts/util/util.py:153-158 | the interpolated point is displaced from a by t times (b - a) |
| Util.LerpDistance | scripts/util/util.py:150-158 | for t >= 0 the interpolated point is t times the distance a-b away from a |
| Util.ToMelString | scripts/util/util.py:129-132 | no '(', ',' or ')' is left, and the length drops by the number of '(' and ',' |
| Util.ToMelStringSpaces | scripts/util/util.py:129-132 | the output has one space per space or ')' of the input |
| Util.ToMelStringConcat | scripts/util/util.py:129-132 | the translation works character by character: it distributes over concatenation |
| Util.ToMelStringKeepsPlainText | scripts/util/util.py:129-132 | text without brackets or commas passes through unchanged |
| Util.ToMelStringIdempotent | scripts/util/util.py:129-132 | translating twice is translating once |
| Util.PrefixAtMostMonotone | scripts/util/util.py:141-146 | a larger key never finds a shorter run of entries at most the key |
| Util.BinarySearchTree | scripts/util/util.py:137-148 | any non-empty table gives an index within it and remainder key - tree[index]. The index brackets the key (tree[index] <= key when index >= 1, key < tree[index + 1] when there is a next entry). On a sorted table the index is the lower-bound position SearchIndex, every tree[1..index] is at most the key, and index is the last one exactly when every entry from 1 on is at most the key |
| Frame.FrameAxes | scripts/util/util.py:84-113 | rows exist exactly for axis types 0..5. The aim vector v0 and the up vector v1 land on the axes of the convention list "ZY, ZX, XZ, XY, YX, YZ", and the remaining row is plus or minus the normalised v1 x v0 |
| Frame.SignFlags | scripts/util/util.py:85-88 | aimAxisNeg negates only v0, upAxisNeg negates only v1, and v1 does not depend on the aim sign |
| Frame.AxesOrthogonal | scripts/util/util.py:87-111 | for every input, v1 is orthogonal to v0 and the third axis is orthogonal to both |
| Frame.Triad | scripts/util/util.py:88-111 | for orthonormal v0 and v1, w = v1 x v0 is a unit vector orthogonal to both, with w x v1 = v0 and w x v0 = -v1 |
| Frame.SixConventions | scripts/util/util.py:90-115 | each of the six row assignments of such a triad is a right-handed orthonormal frame (x x y = z) |
| Frame.ConventionsAreRightHanded | scripts/util/util.py:90-115 | for orthonormal v0 and v1 the third axis is exactly v1 x v0, and all six assignments are right-handed orthonormal frames |
| Frame.AimVectorUnit | scripts/util/util.py:87 | v0 is a unit vector whenever the direction is non-zero |
| Frame.UpVectorUnit | scripts/util/util.py:88 | v1 is a unit vector whenever the direction is non-zero and not parallel to the up reference |
| Frame.UpVectorIsProjection | scripts/util/util.py:87-88 | v1 (unflipped) is the Gram-Schmidt step: the normalised up reference with its component along v0 removed, normalised again |
| Frame.UpVectorLeansToUp | scripts/util/util.py:87-88 | when the direction is non-zero and not parallel to the up reference, v1 (unflipped) has a positive dot product with the normalised up reference, so the joint's up axis follows the surface normal |
| Frame.FrameIsRotation | scripts/util/util.py:84-115 | for a valid axis type and a direction that is non-zero and not parallel to the up reference, the rows form a rotation matrix |
| Geometry.NormalOfNonZero | plug-ins/create_joints_on_mesh_components.py:208 | normalising a non-zero vector divides it by its positive length and gives a unit vector |
| Geometry.NormZero | scripts/util/util.py:127 | only the zero vector has length zero |
| Geometry.NormScale | scripts/util/util.py:127 | scaling a vector by s scales its length by abs(s) |
| Geometry.Lagrange | scripts/util/util.py:88 | Lagrange's identity for the cross product |
| Geometry.TripleProduct | scripts/util/util.py:88 | (a x b) x c = b (a . c) - a (b . c), the identity by which Frame.UpVectorIsProjection reads `(v0 ^ up) ^ v0` as a Gram-Schmidt step |
| Resample.LengthTable | plug-ins/create_joints_on_mesh_components.py:223-226 | the table has one entry per point (one for an empty chain) and starts at 0.0 |
| Resample.LengthTableStep | plug-ins/create_joints_on_mesh_components.py:224-226 | each entry is the previous one plus the length of one segment |
| Resample.LengthTableSorted | plug-ins/create_joints_on_mesh_components.py:223-226 | the table is non-decreasing and never negative |
| Resample.LengthTableEntry | plug-ins/create_joints_on_mesh_components.py:223-226 | entry i is the length of the polyline up to point i |
| Resample.LengthTableTotal | plug-ins/create_joints_on_mesh_components.py:223-226 | the last entry is the total path length, the sum of the segment distances |
| Resample.PathLengthZero | plug-ins/create_joints_on_mesh_components.py:223-235 | the path has length zero exactly when all consecutive points coincide |
| Resample.CumulativeLengths | plug-ins/create_joints_on_mesh_components.py:223-226 | the loop builds exactly the length table |
| Resample.TargetBounds | plug-ins/create_joints_on_mesh_components.py:228-234 | each interior target e * k is at least 0 and below the total when the total is positive |
| Resample.TargetMonotone | plug-ins/create_joints_on_mesh_components.py:228-234 | the targets grow with k |
| Resample.SegmentsInOrder | plug-ins/create_joints_on_mesh_components.py:228-234 | a later interior sample never lands in an earlier segment |
| Resample.SearchBrackets | plug-ins/create_joints_on_mesh_components.py:234-235 | the segment the lookup finds brackets the key: L[j] <= key < L[j + 1] |
| Resample.SampledAtLookup | plug-ins/create_joints_on_mesh_components.py:234-237 | interpolating at the found segment with t = remainder / segment gives the sample at that arc length, with 0 <= t < 1 |
| Resample.InteriorLookup | plug-ins/create_joints_on_mesh_components.py:231-239 | the search result for sample k is SearchIndex, it lands inside the table exactly when the path length is positive, and then it yields the sample at arc length e * k |
| Resample.SampleFront | plug-ins/create_joints_on_mesh_components.py:228-239 | IndexError exactly when interior samples are due on a zero-length path. Otherwise it gives max(divCount, 0) + 1 samples: the first is the first point and its normal, and sample k in 1..divCount is the sample at arc length e * k |
| Resample.RecomputeIntervalPosAndNml | plug-ins/create_joints_on_mesh_components.py:219-243 | ZeroDivisionError for divCount = -1, IndexError for an empty chain or for interior samples on a zero-length path, success otherwise. On success there are max(divCount, 0) + 2 positions and as many normals, the first and last are the original endpoints, and sample k in 1..divCount interpolates position and normal on one segment with one fraction at arc length e * k |
| Resample.ArcLengthOnSegment | plug-ins/create_joints_on_mesh_components.py:234-236 | a point interpolated on segment j at the key's fraction lies key along the polyline |
| Resample.SampleAtArcLength | plug-ins/create_joints_on_mesh_components.py:228-236 | every resampled point lies exactly its target arc length along the polyline |
| Quaternions.MulAssociative | plug-ins/create_joints_on_mesh_components.py:74-75 | the quaternion product is associative |
| Quaternions.MulIdentity | plug-ins/create_joints_on_mesh_components.py:64 | MQuaternion() is the identity on both sides |
| Quaternions.InverseCancels | plug-ins/create_joints_on_mesh_components.py:75 | q.inverse() cancels q on either side |
| Quaternions.InverseOfIdentity | plug-ins/create_joints_on_mesh_components.py:64-75 | the identity has unit norm and is its own inverse |
| Quaternions.DivideThenMultiply | plug-ins/create_joints_on_mesh_components.py:75 | (g * p.inverse()) * p = g |
| ChainDirection.Directions | plug-ins/create_joints_on_mesh_components.py:205-210 | one direction per point |
| ChainDirection.DirectionAt | plug-ins/create_joints_on_mesh_components.py:207-209 | direction i is the unit vector from point i toward point i + 1, or zero when they coincide |
| ChainDirection.DirectionsAlongSegments | plug-ins/create_joints_on_mesh_components.py:205-210 | every direction but the last points along its segment, and the last repeats the one before it |
| ChainDirection.RepairStep | plug-ins/create_joints_on_mesh_components.py:213-216 | one iteration of the repair changes no normal but the one at its own index |
| ChainDirection.RepairUpToAt | plug-ins/create_joints_on_mesh_components.py:212-216 | after k iterations the normal at i holds its repaired value if the loop has passed it, and the original one otherwise. The repaired value is RepairedBeforeLast before the last index and RepairedLast at it |
| ChainDirection.RepairPass | plug-ins/create_joints_on_mesh_components.py:212-216 | only normals parallel to their direction change. Before the last index the new value is the normalised mean with the original next normal. At the last index it is the normalised mean with the previous normal as already repaired |
| ChainDirection.RepairedIsUnit | plug-ins/create_joints_on_mesh_components.py:215-216 | a repaired normal is a unit vector unless the two normals it averages cancel out |
| ChainDirection.RepairNormals | plug-ins/create_joints_on_mesh_components.py:212-216 | the in-place loop over the normal array leaves exactly the normals of the full repair pass |
| ChainDirection.GetChainPoiDirection | plug-ins/create_joints_on_mesh_components.py:205-217 | IndexError with normals untouched for fewer than two points. Otherwise it returns the direction list and leaves in the array the normals after the full repair pass |
| JointChain.JointWorldRotation | scripts/util/util.py:84-120 | a world rotation exists exactly for axis types 0..5, and any other axis type raises UnboundLocalError |
| JointChain.WorldRotationOfFrame | scripts/util/util.py:84-120 | for a valid axis type and a non-degenerate direction, the world rotation is that of a rotation matrix whose aim and up rows are v0 and v1 |
| JointChain.EmittedBelow | plug-ins/create_joints_on_mesh_components.py:66-71 | the first k points give at most k joints |
| JointChain.EmittedBelowOrdered | plug-ins/create_joints_on_mesh_components.py:66-71 | the joints are created for exactly the points the flags let through, each once, in increasing order |
| JointChain.EmittedBelowCount | plug-ins/create_joints_on_mesh_components.py:66-71 | the number of joints among the first k points |
| JointChain.EmittedCount | plug-ins/create_joints_on_mesh_components.py:66-71 | with count >= 2 points the loop creates count - (root ? 0 : 1) - (tip ? 0 : 1) joints |
| JointChain.EmittedFirst | plug-ins/create_joints_on_mesh_components.py:66-93 | the first joint created, the root, stands on point 0, or on point 1 when root joints are off |
| JointChain.AppendJoint | plug-ins/create_joints_on_mesh_components.py:74-90 | appending a joint whose rotation divides out the last world rotation keeps every joint's facts |
| JointChain.CreateJointChain | plug-ins/create_joints_on_mesh_components.py:64-93 | fails, with UnboundLocalError, exactly when a joint is due and the axis type is invalid. Otherwise joint k stands on the k-th emitted point with that point's frame as world rotation and world * parent.inverse() as rotation, and the root is the first emitted point |
| JointChain.JointsIndexed | plug-ins/create_joints_on_mesh_components.py:66-79 | one joint per emitted point, each at that point's index and position |
| JointChain.FirstIsWorld | plug-ins/create_joints_on_mesh_components.py:64-75 | the first joint's rotation is its world rotation, skipped root or not |
| JointChain.LocalTimesParent | plug-ins/create_joints_on_mesh_components.py:75-90 | local * parentGlobal = global for a joint and its parent |
| JointChain.LinkedAt | plug-ins/create_joints_on_mesh_components.py:74-90 | for every later joint, its rotation times the previous joint's world rotation is its own world rotation |
| JointChain.LocalTimesParentIsWorld | plug-ins/create_joints_on_mesh_components.py:64-90 | the rotations telescope along the chain: the first is global, and every later local * parentGlobal = global |
| JointChain.ChainIsLinked | plug-ins/create_joints_on_mesh_components.py:64-93 | the loop's joints form a linked chain: ordered by point, rooted at the first, and telescoping |
| JointChain.DoIt | plug-ins/create_joints_on_mesh_components.py:34-93 | TooFewComponents below two components, the resampler's errors when resampling, UnboundLocalError for an invalid axis type with a joint due, success otherwise. On success the chain points are the components' positions and normals, or with create type 1 the even resampling ResampledChain describes. The directions are Directions of those points and the up references their normals after the full repair pass. Joint k stands on the k-th emitted point, at its position, with the world rotation of the frame of that point's direction and repaired normal and the rotation relative to the joint before it. The joints form a linked chain |

## Left out

- Maya plumbing is not part of this model: the `mel.eval` calls, the selection-order preference, the `joint`, `select` and `parent -w` commands, `MArgDatabase`/`MSyntax` flag parsing and plug-in registration. They are calls into the host.
- `ParseSelectionList` and `GetComponentPosAndNml` are not part of this model, because they are mesh queries through `MFnMesh`. `JointChain.DoIt` takes the positions and normals as inputs. Its check for fewer than two points stands in for the selection count check. The edge normal of `GetComponentPosAndNml`, which averages the first vertex normal with itself, is therefore not modelled.
- The debug-draw manipulator, its context and its command are left out: they only redraw the same pipeline in the viewport.
- The PySide2 tool window and its base class are left out: they are UI only.
- The util.py host helpers `selectedComponentType`, `getSelectedComponentIds`, `getSelectedTransform` and `getCodeLocation` are left out, because they query Maya or the interpreter.
- Floating point is not modelled: reals replace doubles and the single-precision `MFloatArray`, and the square root is the parameter `len`.
- The `isParallel` tolerance is not modelled: `parallel` is an arbitrary predicate.
- `MQuaternion.setValue` from a matrix is the parameter `fromMatrix`. Only its rows, `Frame.FrameAxes`, are modelled.
- `asEulerRotation`, `toDeg3`, the `str()` formatting of vectors and the `-setOnJointOrient` choice of command string are not modelled. They only change how a joint's rotation is passed to the `joint` command.
- Util.ToMelString: works on the given text. Python's `str()` of an MVector that produces that text is not modelled.
- JointChain.CreateJointChain: records each joint's point index, position, rotation and world rotation in place of creating a scene joint. The root is recorded as its point index rather than as the joint's path.
- JointChain.CreateJointChain: requires that `fromMatrix` never yields a zero quaternion, so that `inverse()` is defined. Maya's `setValue` on a rotation matrix yields a unit quaternion.
- JointChain.DoIt: requires the same of `fromMatrix`. It does not model the final `select` of the root joint.
- Quaternions.Mul: is the Hamilton product. Whether Maya's `*` multiplies in this order or the reverse is not modelled; the chain's results use only associativity, the two-sided identity and the inverse, which hold either way.
- Util.BinarySearchTree: requires a non-empty table. On an empty one Python raises IndexError reading `tree[0]`; its only caller passes the length table, which always has at least one entry.
- Resample.RecomputeIntervalPosAndNml: requires as many normals as points, as `doIt` always supplies. A shorter normal array, which raises IndexError in Python, is not modelled.
- ChainDirection.GetChainPoiDirection: requires as many normals as points, as `doIt` always supplies. Arrays of different lengths are not modelled.
- Geometry.Normal: a zero vector is returned unchanged. Maya's tolerance for near-zero vectors is not modelled.
