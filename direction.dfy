/** `GetChainPoiDirection`: the forward direction at every chain point, and
    the in-place repair of normals that are parallel to their direction. */
module ChainDirection {
  import opened Geometry
  import opened Wrappers

  /** The direction list: point `i` looks toward point `i + 1`, and the last
      point repeats the direction of the one before it. */
  function Directions(len: Vec -> real, pos: seq<Point>): (dirs: seq<Vec>)
    requires |pos| >= 2
    ensures |dirs| == |pos|
  {
    var front := seq(|pos| - 1, i requires 0 <= i < |pos| - 1 => Normal(len, Diff(pos[i + 1], pos[i])));
    front + [front[|pos| - 2]]
  }

  /** `dir` is the unit vector along `d`, a positive multiple of it, or zero
      when `d` is. */
  ghost predicate PointsAlong(len: Vec -> real, d: Vec, dir: Vec) {
    if d == Zero then dir == Zero
    else IsUnit(dir) && len(d) > 0.0 && dir == Scale(d, 1.0 / len(d))
  }

  lemma DirectionAt(len: Vec -> real, pos: seq<Point>, i: nat)
    requires IsNorm(len) && i + 1 < |pos|
    ensures PointsAlong(len, Diff(pos[i + 1], pos[i]), Directions(len, pos)[i])
  {
    var d := Diff(pos[i + 1], pos[i]);
    assert Directions(len, pos)[i] == Normal(len, d);
    if d == Zero {
      NormZero(len, d);
    } else {
      NormalOfNonZero(len, d);
    }
  }

  /** Every direction but the last is the unit vector from a point toward the
      next one, and the last repeats the one before it. */
  lemma DirectionsAlongSegments(len: Vec -> real, pos: seq<Point>)
    requires IsNorm(len) && |pos| >= 2
    ensures var dirs := Directions(len, pos);
      forall i :: 0 <= i < |pos| - 1 ==> PointsAlong(len, Diff(pos[i + 1], pos[i]), dirs[i])
    ensures var dirs := Directions(len, pos); dirs[|pos| - 1] == dirs[|pos| - 2]
  {
    forall i | 0 <= i < |pos| - 1
      ensures PointsAlong(len, Diff(pos[i + 1], pos[i]), Directions(len, pos)[i])
    {
      DirectionAt(len, pos, i);
    }
  }

  /** The averaged normal written at index `i` when it is repaired: the mean
      with the previous normal for the last index, with the next one otherwise. */
  function RepairValue(len: Vec -> real, cur: seq<Vec>, i: nat): Vec
    requires 2 <= |cur| && i < |cur|
  {
    Normal(len, if i == |cur| - 1 then Mid(cur[i], cur[i - 1]) else Mid(cur[i], cur[i + 1]))
  }

  /** One iteration of the repair loop, on the normals as they stand. */
  function RepairStep(len: Vec -> real, parallel: (Vec, Vec) -> bool, dirs: seq<Vec>, cur: seq<Vec>, i: nat)
    : (next: seq<Vec>)
    requires 2 <= |cur| == |dirs| && i < |cur|
    ensures |next| == |cur|
    ensures forall m :: 0 <= m < |cur| && m != i ==> next[m] == cur[m]
  {
    if parallel(dirs[i], cur[i]) then cur[i := RepairValue(len, cur, i)] else cur
  }

  /** The normals after the first `k` iterations of the repair loop. */
  function RepairUpTo(len: Vec -> real, parallel: (Vec, Vec) -> bool, dirs: seq<Vec>, nml: seq<Vec>, k: nat)
    : (cur: seq<Vec>)
    requires 2 <= |nml| == |dirs| && k <= |nml|
    ensures |cur| == |nml|
  {
    if k == 0 then nml else RepairStep(len, parallel, dirs, RepairUpTo(len, parallel, dirs, nml, k - 1), k - 1)
  }

  /** Independent reading of the repair at an index before the last: decided
      on the original normal, averaged with the original next normal. */
  function RepairedBeforeLast(len: Vec -> real, parallel: (Vec, Vec) -> bool, dirs: seq<Vec>, nml: seq<Vec>, i: nat): Vec
    requires 2 <= |nml| == |dirs| && i < |nml| - 1
  {
    if parallel(dirs[i], nml[i]) then Normal(len, Mid(nml[i], nml[i + 1])) else nml[i]
  }

  /** The repair at the last index: decided on the original normal, averaged
      with the previous normal as already repaired. */
  function RepairedLast(len: Vec -> real, parallel: (Vec, Vec) -> bool, dirs: seq<Vec>, nml: seq<Vec>): Vec
    requires 2 <= |nml| == |dirs|
  {
    var n := |nml|;
    if parallel(dirs[n - 1], nml[n - 1])
    then Normal(len, Mid(nml[n - 1], RepairedBeforeLast(len, parallel, dirs, nml, n - 2)))
    else nml[n - 1]
  }

  /** After `k` iterations the normal at `i` holds its repaired value if the
      loop has passed it, and the original one otherwise. */
  lemma {:induction false} RepairUpToAt(len: Vec -> real, parallel: (Vec, Vec) -> bool, dirs: seq<Vec>, nml: seq<Vec>, k: nat, i: nat)
    requires 2 <= |nml| == |dirs| && k <= |nml| && i < |nml|
    ensures RepairUpTo(len, parallel, dirs, nml, k)[i] ==
      if k <= i then nml[i]
      else if i < |nml| - 1 then RepairedBeforeLast(len, parallel, dirs, nml, i)
      else RepairedLast(len, parallel, dirs, nml)
  {
    if k > 0 {
      RepairUpToAt(len, parallel, dirs, nml, k - 1, i);
      if i == k - 1 {
        if i < |nml| - 1 {
          RepairUpToAt(len, parallel, dirs, nml, k - 1, i + 1);
        } else {
          RepairUpToAt(len, parallel, dirs, nml, k - 1, i - 1);
        }
      }
    }
  }

  /** What the full repair pass does: a normal is overwritten only where it is
      parallel to its direction. Before the last index it becomes the
      normalised mean with the ORIGINAL next normal, and the last one the
      normalised mean with the previous normal AS ALREADY REPAIRED. */
  lemma RepairPass(len: Vec -> real, parallel: (Vec, Vec) -> bool, dirs: seq<Vec>, nml: seq<Vec>)
    requires 2 <= |nml| == |dirs|
    ensures var r := RepairUpTo(len, parallel, dirs, nml, |nml|);
      forall i :: 0 <= i < |nml| - 1 ==> r[i] == RepairedBeforeLast(len, parallel, dirs, nml, i)
    ensures RepairUpTo(len, parallel, dirs, nml, |nml|)[|nml| - 1] == RepairedLast(len, parallel, dirs, nml)
  {
    forall i | 0 <= i < |nml| - 1
      ensures RepairUpTo(len, parallel, dirs, nml, |nml|)[i] == RepairedBeforeLast(len, parallel, dirs, nml, i)
    {
      RepairUpToAt(len, parallel, dirs, nml, |nml|, i);
    }
    RepairUpToAt(len, parallel, dirs, nml, |nml|, |nml| - 1);
  }

  /** A repaired normal is a unit vector unless the two normals it averages
      cancel out. */
  lemma RepairedIsUnit(len: Vec -> real, parallel: (Vec, Vec) -> bool, dirs: seq<Vec>, nml: seq<Vec>, i: nat)
    requires IsNorm(len) && 2 <= |nml| == |dirs| && i < |nml|
    requires parallel(dirs[i], nml[i])
    ensures var r := RepairUpTo(len, parallel, dirs, nml, |nml|);
      var other := if i == |nml| - 1 then r[i - 1] else nml[i + 1];
      Mid(nml[i], other) != Zero ==> IsUnit(r[i])
  {
    var r := RepairUpTo(len, parallel, dirs, nml, |nml|);
    RepairUpToAt(len, parallel, dirs, nml, |nml|, i);
    if i == |nml| - 1 {
      RepairUpToAt(len, parallel, dirs, nml, |nml|, i - 1);
    }
    var other := if i == |nml| - 1 then r[i - 1] else nml[i + 1];
    if Mid(nml[i], other) != Zero {
      NormalOfNonZero(len, Mid(nml[i], other));
    }
  }

  /** `GetChainPoiDirection`: returns the direction list and repairs `nml` in
      place. With fewer than two points the direction list is empty when its
      last element is copied, and Python raises before any normal changes. */
  method GetChainPoiDirection(len: Vec -> real, parallel: (Vec, Vec) -> bool, nml: array<Vec>, pos: seq<Point>)
    returns (r: Result<seq<Vec>>)
    requires nml.Length == |pos|
    modifies nml
    ensures |pos| < 2 ==> r == Err(IndexError) && nml[..] == old(nml[..])
    ensures |pos| >= 2 ==>
      && r == Ok(Directions(len, pos))
      && nml[..] == RepairUpTo(len, parallel, r.value, old(nml[..]), nml.Length)
  {
    var dirs: seq<Vec> := [];
    var i := 0;
    while i < |pos| - 1
      invariant 0 <= i <= if |pos| == 0 then 0 else |pos| - 1
      invariant |dirs| == i
      invariant forall m :: 0 <= m < i ==> dirs[m] == Normal(len, Diff(pos[m + 1], pos[m]))
    {
      dirs := dirs + [Normal(len, Diff(pos[i + 1], pos[i]))];
      i := i + 1;
    }
    if |dirs| == 0 {
      return Err(IndexError);
    }
    dirs := dirs + [dirs[|dirs| - 1]];
    assert dirs == Directions(len, pos);
    RepairNormals(len, parallel, nml, dirs);
    return Ok(dirs);
  }

  /** The second loop of `GetChainPoiDirection`: the repair pass, in place. */
  method RepairNormals(len: Vec -> real, parallel: (Vec, Vec) -> bool, nml: array<Vec>, dirs: seq<Vec>)
    requires 2 <= nml.Length == |dirs|
    modifies nml
    ensures nml[..] == RepairUpTo(len, parallel, dirs, old(nml[..]), nml.Length)
  {
    ghost var original := nml[..];
    var i := 0;
    while i < nml.Length
      invariant 0 <= i <= nml.Length
      invariant nml[..] == RepairUpTo(len, parallel, dirs, original, i)
    {
      ghost var before := nml[..];
      if parallel(dirs[i], nml[i]) {
        var lerpVal := if i == nml.Length - 1 then Mid(nml[i], nml[i - 1]) else Mid(nml[i], nml[i + 1]);
        nml[i] := Normal(len, lerpVal);
        assert nml[..] == before[i := RepairValue(len, before, i)];
      }
      assert nml[..] == RepairStep(len, parallel, dirs, before, i);
      i := i + 1;
    }
  }
}
