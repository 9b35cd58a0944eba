/** `RecomputeIntervalPosAndNml`: resampling a chain of points into evenly
    spaced samples along its polyline, normals interpolated alongside. */
module Resample {
  import opened Geometry
  import opened Wrappers
  import opened Util

  /** The resampled positions and normals, index for index. */
  datatype Samples = Samples(positions: seq<Point>, normals: seq<Vec>)

  /** The cumulative length table `length_pack`: entry `i` is the distance
      walked along the polyline from the first point to point `i`. */
  function LengthTable(len: Vec -> real, pos: seq<Point>): (table: seq<real>)
    requires IsNorm(len)
    ensures |table| == if |pos| == 0 then 1 else |pos|
    ensures table[0] == 0.0
    decreases |pos|
  {
    if |pos| <= 1 then [0.0]
    else
      var prev := LengthTable(len, pos[..|pos| - 1]);
      prev + [prev[|prev| - 1] + Distance(len, pos[|pos| - 2], pos[|pos| - 1])]
  }

  /** The length of the polyline through `pos`, summed from the front. */
  function PathLength(len: Vec -> real, pos: seq<Point>): (total: real)
    requires IsNorm(len)
    ensures total >= 0.0
  {
    if |pos| <= 1 then 0.0 else Distance(len, pos[0], pos[1]) + PathLength(len, pos[1..])
  }

  /** Each entry adds the length of one segment to the one before it. */
  lemma {:induction false} LengthTableStep(len: Vec -> real, pos: seq<Point>, i: nat)
    requires IsNorm(len) && i + 1 < |pos|
    ensures LengthTable(len, pos)[i + 1] == LengthTable(len, pos)[i] + Distance(len, pos[i], pos[i + 1])
    decreases |pos|
  {
    var front := pos[..|pos| - 1];
    if i + 2 < |pos| {
      LengthTableStep(len, front, i);
      assert front[i] == pos[i] && front[i + 1] == pos[i + 1];
    }
  }

  /** The table is non-decreasing and so never negative. */
  lemma {:induction false} LengthTableSorted(len: Vec -> real, pos: seq<Point>)
    requires IsNorm(len)
    ensures IsSorted(LengthTable(len, pos))
    ensures forall k :: 0 <= k < |LengthTable(len, pos)| ==> LengthTable(len, pos)[k] >= 0.0
    decreases |pos|
  {
    if |pos| > 1 {
      LengthTableSorted(len, pos[..|pos| - 1]);
    }
  }

  /** Dropping the last point shortens the path by its last segment. */
  lemma {:induction false} PathLengthDropLast(len: Vec -> real, pos: seq<Point>)
    requires IsNorm(len) && |pos| >= 2
    ensures PathLength(len, pos) == PathLength(len, pos[..|pos| - 1]) + Distance(len, pos[|pos| - 2], pos[|pos| - 1])
    decreases |pos|
  {
    if |pos| > 2 {
      PathLengthDropLast(len, pos[1..]);
      assert pos[1..][..|pos| - 2] == pos[..|pos| - 1][1..];
    }
  }

  /** Every entry is the path length up to its point; in particular the last
      entry is the length of the whole polyline. */
  lemma {:induction false} LengthTableEntry(len: Vec -> real, pos: seq<Point>, i: nat)
    requires IsNorm(len) && i < |pos|
    ensures LengthTable(len, pos)[i] == PathLength(len, pos[..i + 1])
    decreases |pos|
  {
    if i + 1 < |pos| {
      var front := pos[..|pos| - 1];
      LengthTableEntry(len, front, i);
      assert front[..i + 1] == pos[..i + 1];
    } else if |pos| >= 2 {
      var front := pos[..|pos| - 1];
      LengthTableEntry(len, front, |pos| - 2);
      assert front[..|pos| - 1] == front;
      PathLengthDropLast(len, pos);
      assert pos[..i + 1] == pos;
    }
  }

  lemma LengthTableTotal(len: Vec -> real, pos: seq<Point>)
    requires IsNorm(len)
    ensures LengthTable(len, pos)[|LengthTable(len, pos)| - 1] == PathLength(len, pos)
  {
    if |pos| > 0 {
      LengthTableEntry(len, pos, |pos| - 1);
      assert pos[..|pos|] == pos;
    }
  }

  /** The polyline has length zero exactly when all its points coincide
      (their `w` components aside). */
  lemma {:induction false} PathLengthZero(len: Vec -> real, pos: seq<Point>)
    requires IsNorm(len)
    ensures PathLength(len, pos) == 0.0 <==> forall i :: 0 <= i < |pos| - 1 ==> Diff(pos[i], pos[i + 1]) == Zero
  {
    if |pos| > 1 {
      PathLengthZero(len, pos[1..]);
      assert forall i :: 1 <= i < |pos| - 1 ==> pos[1..][i - 1] == pos[i] && pos[1..][i] == pos[i + 1];
    }
  }

  /** The arc length of sample `k`: `e * k` with `e` the total over `divCount + 1`. */
  function Target(total: real, divCount: int, k: int): real
    requires divCount != -1
  {
    total / (divCount + 1) as real * k as real
  }

  /** Targets of the interior samples lie in `[0, total)` and grow with `k`. */
  lemma TargetBounds(total: real, divCount: int, k: int)
    requires total >= 0.0 && 1 <= k <= divCount
    ensures 0.0 <= Target(total, divCount, k)
    ensures total > 0.0 ==> Target(total, divCount, k) < total
    ensures total == 0.0 ==> Target(total, divCount, k) == 0.0
  {
    var e := total / (divCount + 1) as real;
    assert e * (divCount + 1) as real == total;
    ProductSign(e, k as real);
    if total > 0.0 {
      assert e * (divCount + 1) as real - e * k as real == e * (divCount + 1 - k) as real;
      ProductSign(e, (divCount + 1 - k) as real);
    }
  }

  lemma TargetMonotone(total: real, divCount: int, k1: int, k2: int)
    requires total >= 0.0 && 1 <= k1 <= k2 <= divCount
    ensures Target(total, divCount, k1) <= Target(total, divCount, k2)
  {
    var e := total / (divCount + 1) as real;
    assert e * k2 as real - e * k1 as real == e * (k2 - k1) as real;
    ProductSign(e, (k2 - k1) as real);
  }

  /** `(p, n)` interpolates segment `j` at fraction `t`, and `key` lies that
      fraction of the segment's length past its start. */
  predicate OnSegment(table: seq<real>, pos: seq<Point>, nml: seq<Vec>, j: nat, key: real, t: real, p: Point, n: Vec)
    requires j + 1 < |table| == |pos| == |nml|
  {
    && 0.0 <= t < 1.0 && KeyAt(table, j, key, t)
    && p == LerpPoint(pos[j], pos[j + 1], t) && n == LerpVec(nml[j], nml[j + 1], t)
  }

  /** `key` lies fraction `t` of the way from entry `j` to entry `j + 1`. */
  predicate KeyAt(table: seq<real>, j: nat, key: real, t: real)
    requires j + 1 < |table|
  {
    key == table[j] + t * (table[j + 1] - table[j])
  }

  /** Sample `(p, n)` is the one at arc length `key`: `key` falls in the
      segment the table lookup finds, strictly before its end, and position
      and normal are interpolated on that segment with one and the same
      fraction `t` in [0, 1). */
  ghost predicate SampledAt(table: seq<real>, pos: seq<Point>, nml: seq<Vec>, key: real, p: Point, n: Vec)
    requires |table| > 0
  {
    var j := SearchIndex(table, key);
    && j + 1 < |table| == |pos| == |nml| && table[j] <= key < table[j + 1]
    && exists t :: OnSegment(table, pos, nml, j, key, t, p, n)
  }

  lemma FractionBounds(a: real, b: real)
    requires 0.0 <= a < b
    ensures 0.0 <= a / b < 1.0
    ensures a / b * b == a
  {
  }

  /** The lookup brackets `key` between the entry it finds and the next one. */
  lemma SearchBrackets(table: seq<real>, key: real)
    requires |table| > 0 && table[0] <= key
    requires SearchIndex(table, key) + 1 < |table|
    ensures table[SearchIndex(table, key)] <= key < table[SearchIndex(table, key) + 1]
  {
    var j := SearchIndex(table, key);
    PrefixAtMostBounds(table[1..], key);
    assert j > 0 ==> table[1..][j - 1] == table[j];
    assert table[1..][j] == table[j + 1];
  }

  /** Looking `key` up in a sorted table whose first entry is at most `key`
      brackets it, and the interpolation at that bracket is the sample. */
  lemma SampledAtLookup(table: seq<real>, pos: seq<Point>, nml: seq<Vec>, key: real)
    requires |table| == |pos| == |nml| > 0 && table[0] <= key
    requires SearchIndex(table, key) + 1 < |table|
    ensures var j := SearchIndex(table, key);
      && table[j] <= key < table[j + 1]
      && var t := (key - table[j]) / (table[j + 1] - table[j]);
         SampledAt(table, pos, nml, key, LerpPoint(pos[j], pos[j + 1], t), LerpVec(nml[j], nml[j + 1], t))
  {
    var j := SearchIndex(table, key);
    SearchBrackets(table, key);
    var t := (key - table[j]) / (table[j + 1] - table[j]);
    FractionBounds(key - table[j], table[j + 1] - table[j]);
    assert OnSegment(table, pos, nml, j, key, t, LerpPoint(pos[j], pos[j + 1], t), LerpVec(nml[j], nml[j + 1], t));
  }

  /** The first loop of `RecomputeIntervalPosAndNml`, which fills
      `length_pack` one segment at a time. */
  method CumulativeLengths(len: Vec -> real, pos: seq<Point>) returns (table: seq<real>)
    requires IsNorm(len)
    ensures table == LengthTable(len, pos)
  {
    table := [0.0];
    var i := 0;
    while i < |pos| - 1
      invariant 0 <= i <= if |pos| == 0 then 0 else |pos| - 1
      invariant table == LengthTable(len, pos[..if |pos| == 0 then 0 else i + 1])
    {
      assert pos[..i + 2][..i + 1] == pos[..i + 1];
      table := table + [table[|table| - 1] + Distance(len, pos[i], pos[i + 1])];
      i := i + 1;
    }
    assert pos[..if |pos| == 0 then 0 else i + 1] == pos;
  }

  /** A lookup `(j, remainder)` for interior sample `k` that brackets its key
      as `binarySearchTree` does: in the length table it is the one
      `SearchIndex` describes; it lands inside the table exactly when the
      polyline has positive length, and then it yields the sample at arc
      length `Target(total, divCount, k)`. */
  lemma InteriorLookup(len: Vec -> real, pos: seq<Point>, nml: seq<Vec>, table: seq<real>,
                       divCount: int, k: int, key: real, j: nat, remainder: real)
    requires IsNorm(len) && |nml| == |pos| > 0
    requires 1 <= k <= divCount
    requires table == LengthTable(len, pos) && key == Target(table[|table| - 1], divCount, k)
    requires j < |table| && (j >= 1 ==> table[j] <= key) && (j + 1 < |table| ==> key < table[j + 1])
    requires remainder == key - table[j]
    ensures j == SearchIndex(table, key)
    ensures j + 1 < |table| <==> table[|table| - 1] > 0.0
    ensures j + 1 < |table| ==>
      && table[j] < table[j + 1]
      && var t := remainder / (table[j + 1] - table[j]);
         SampledAt(table, pos, nml, key, LerpPoint(pos[j], pos[j + 1], t), LerpVec(nml[j], nml[j + 1], t))
  {
    var total := table[|table| - 1];
    var tail := table[1..];
    LengthTableSorted(len, pos);
    TargetBounds(total, divCount, k);
    assert forall i :: 0 <= i < j ==> tail[i] == table[i + 1] <= table[j] <= key;
    PrefixAtMostUnique(tail, key, j);
    if total > 0.0 {
      assert j + 1 < |table|;
      SampledAtLookup(table, pos, nml, key);
    }
  }

  /** `s` resamples the chain with `divCount` interior samples: as many
      positions as normals, `max(divCount, 0) + 2` of each, the original
      endpoints kept, and sample `k` in `1..divCount` the one at arc length
      `Target(total, divCount, k)`. */
  ghost predicate ResampledChain(len: Vec -> real, divCount: int, pos: seq<Point>, nml: seq<Vec>, s: Samples)
    requires IsNorm(len) && |nml| == |pos| > 0
  {
    && |s.positions| == |s.normals| == (if divCount < 0 then 0 else divCount) + 2
    && s.positions[0] == pos[0] && s.normals[0] == nml[0]
    && s.positions[|s.positions| - 1] == pos[|pos| - 1]
    && s.normals[|s.normals| - 1] == nml[|nml| - 1]
    && forall k :: 1 <= k <= divCount ==>
         SampledAt(LengthTable(len, pos), pos, nml, Target(PathLength(len, pos), divCount, k),
                   s.positions[k], s.normals[k])
  }

  /** `RecomputeIntervalPosAndNml`: the first point, `divCount` interior
      samples evenly spaced by arc length, then the last point. The errors
      are the ones Python raises: dividing by `divCount + 1 == 0`, reading
      the first point of an empty chain, and reading past the length table
      when a chain of length zero has interior samples. */
  method RecomputeIntervalPosAndNml(len: Vec -> real, divCount: int, pos: seq<Point>, nml: seq<Vec>)
    returns (r: Result<Samples>)
    requires IsNorm(len)
    requires |nml| == |pos|
    ensures divCount == -1 ==> r == Err(ZeroDivisionError)
    ensures divCount != -1 && |pos| == 0 ==> r == Err(IndexError)
    ensures divCount >= 1 && |pos| > 0 && PathLength(len, pos) == 0.0 ==> r == Err(IndexError)
    ensures r.Ok? <==> divCount != -1 && |pos| > 0 && (divCount >= 1 ==> PathLength(len, pos) > 0.0)
    ensures r.Ok? ==> ResampledChain(len, divCount, pos, nml, r.value)
  {
    var table := CumulativeLengths(len, pos);
    LengthTableTotal(len, pos);
    var total := table[|table| - 1];
    if divCount == -1 {
      return Err(ZeroDivisionError);
    }
    var e := total / (divCount + 1) as real;
    if |pos| == 0 {
      return Err(IndexError);
    }
    var front := SampleFront(len, pos, nml, table, divCount, e);
    if front.Err? {
      return Err(front.error);
    }
    var positions, normals := front.value.positions, front.value.normals;
    positions := positions + [pos[|pos| - 1]];
    normals := normals + [nml[|nml| - 1]];
    return Ok(Samples(positions, normals));
  }

  /** The second loop of `RecomputeIntervalPosAndNml`: the first point, then
      one sample per target arc length `e * k` for `k` in `1..divCount`. A
      target that falls past the table's last segment, as on a path of
      length zero, reads past the end of the table. */
  method SampleFront(len: Vec -> real, pos: seq<Point>, nml: seq<Vec>, table: seq<real>, divCount: int, e: real)
    returns (r: Result<Samples>)
    requires IsNorm(len) && |nml| == |pos| > 0
    requires table == LengthTable(len, pos) && divCount != -1
    requires e == table[|table| - 1] / (divCount + 1) as real
    ensures r.Ok? <==> (divCount >= 1 ==> table[|table| - 1] > 0.0)
    ensures r.Err? ==> r.error == IndexError
    ensures r.Ok? ==>
      && |r.value.positions| == |r.value.normals| == (if divCount < 0 then 0 else divCount) + 1
      && r.value.positions[0] == pos[0] && r.value.normals[0] == nml[0]
      && forall k :: 1 <= k <= divCount ==>
           SampledAt(table, pos, nml, Target(table[|table| - 1], divCount, k), r.value.positions[k], r.value.normals[k])
  {
    var total := table[|table| - 1];
    var positions, normals := [pos[0]], [nml[0]];
    for k := 0 to if divCount + 1 < 0 then 0 else divCount + 1
      invariant |positions| == |normals| == if k == 0 then 1 else k
      invariant positions[0] == pos[0] && normals[0] == nml[0]
      invariant k >= 2 ==> total > 0.0
      invariant forall m :: 1 <= m < k ==>
        SampledAt(table, pos, nml, Target(total, divCount, m), positions[m], normals[m])
    {
      if k == 0 {
        continue;
      }
      var key := e * k as real;
      assert key == Target(total, divCount, k);
      var j, remainder := BinarySearchTree(table, key);
      InteriorLookup(len, pos, nml, table, divCount, k, key, j, remainder);
      if j + 1 == |table| {
        return Err(IndexError);
      }
      var t := remainder / (table[j + 1] - table[j]);
      var p, n := LerpPoint(pos[j], pos[j + 1], t), LerpVec(nml[j], nml[j + 1], t);
      assert SampledAt(table, pos, nml, key, p, n);
      positions := positions + [p];
      normals := normals + [n];
      assert positions[k] == p && normals[k] == n;
    }
    return Ok(Samples(positions, normals));
  }

  /** The interior samples walk the segments in order: a later sample never
      lies in an earlier segment. */
  lemma SegmentsInOrder(len: Vec -> real, pos: seq<Point>, divCount: int, k1: int, k2: int)
    requires IsNorm(len) && 1 <= k1 <= k2 <= divCount
    ensures var table, total := LengthTable(len, pos), PathLength(len, pos);
      SearchIndex(table, Target(total, divCount, k1)) <= SearchIndex(table, Target(total, divCount, k2))
  {
    var table, total := LengthTable(len, pos), PathLength(len, pos);
    TargetMonotone(total, divCount, k1, k2);
    PrefixAtMostMonotone(table[1..], Target(total, divCount, k1), Target(total, divCount, k2));
  }

  /** A point interpolated on segment `j` at the fraction of the segment
      that `key` lies past the segment's start is `key` along the polyline. */
  lemma {:induction false} ArcLengthOnSegment(len: Vec -> real, pos: seq<Point>, j: nat, key: real, t: real, p: Point)
    requires IsNorm(len) && j + 1 < |pos| && 0.0 <= t
    requires KeyAt(LengthTable(len, pos), j, key, t)
    requires p == LerpPoint(pos[j], pos[j + 1], t)
    ensures PathLength(len, pos[..j + 1]) + Distance(len, pos[j], p) == key
  {
    var table := LengthTable(len, pos);
    LengthTableEntry(len, pos, j);
    LengthTableStep(len, pos, j);
    LerpDistance(len, pos[j], pos[j + 1], t);
    ArcArithmetic(PathLength(len, pos[..j + 1]), Distance(len, pos[j], p), table[j], table[j + 1],
                  t, Distance(len, pos[j], pos[j + 1]), key);
  }

  lemma ArcArithmetic(before: real, along: real, lo: real, hi: real, t: real, segment: real, key: real)
    requires before == lo && along == t * segment && hi == lo + segment && key == lo + t * (hi - lo)
    ensures before + along == key
  {
  }

  /** Evenly spaced means by arc length: the sample found for `key` lies
      exactly `key` along the polyline, the path up to its segment's start
      plus the straight distance from there. */
  lemma SampleAtArcLength(len: Vec -> real, pos: seq<Point>, nml: seq<Vec>, key: real, p: Point, n: Vec)
    requires IsNorm(len) && SampledAt(LengthTable(len, pos), pos, nml, key, p, n)
    ensures var j := SearchIndex(LengthTable(len, pos), key);
      PathLength(len, pos[..j + 1]) + Distance(len, pos[j], p) == key
  {
    var j := SearchIndex(LengthTable(len, pos), key);
    var t :| OnSegment(LengthTable(len, pos), pos, nml, j, key, t, p, n);
    ArcLengthOnSegment(len, pos, j, key, t, p);
  }
}
