/** The pure helpers and the table search of the utility module: distance,
    linear interpolation, the MEL-string translation and `binarySearchTree`. */
module Util {
  import opened Geometry

  /** `getDistanceAtoB`: the length of `a - b`. */
  function Distance(len: Vec -> real, a: Point, b: Point): (d: real)
    requires IsNorm(len)
    ensures d >= 0.0
    ensures d == 0.0 <==> Diff(a, b) == Zero
  {
    NormZero(len, Diff(a, b));
    NormLaw(len, Diff(a, b));
    len(Diff(a, b))
  }

  /** `lerp_MVector`: `a + (b - a) * t`. */
  function LerpVec(a: Vec, b: Vec, t: real): (r: Vec)
    ensures t == 0.0 ==> r == a
    ensures t == 1.0 ==> r == b
    ensures a == b ==> r == a
  {
    Add(a, Scale(Sub(b, a), t))
  }

  /** `lerp_MPoint`: the same interpolation on all four components, w included. */
  function LerpPoint(a: Point, b: Point, t: real): (r: Point)
    ensures t == 0.0 ==> r == a
    ensures t == 1.0 ==> r == b
    ensures a == b ==> r == a
  {
    Point(a.x + (b.x - a.x) * t, a.y + (b.y - a.y) * t, a.z + (b.z - a.z) * t, a.w + (b.w - a.w) * t)
  }

  /** The interpolated point is displaced from `a` by `t` times `b - a`. */
  lemma LerpPointDisplacement(a: Point, b: Point, t: real)
    ensures Diff(LerpPoint(a, b, t), a) == Scale(Diff(b, a), t)
  {
  }

  lemma DistanceSymmetric(len: Vec -> real, a: Point, b: Point)
    requires IsNorm(len)
    ensures Distance(len, a, b) == Distance(len, b, a)
  {
    assert Diff(a, b) == Scale(Diff(b, a), -1.0);
    NormScale(len, Diff(b, a), -1.0);
  }

  /** For `t >= 0` the interpolated point lies `t` times the distance from
      `a` to `b` away from `a`. */
  lemma LerpDistance(len: Vec -> real, a: Point, b: Point, t: real)
    requires IsNorm(len) && t >= 0.0
    ensures Distance(len, a, LerpPoint(a, b, t)) == t * Distance(len, a, b)
  {
    LerpPointDisplacement(a, b, t);
    DistanceSymmetric(len, a, LerpPoint(a, b, t));
    NormScale(len, Diff(b, a), t);
    DistanceSymmetric(len, a, b);
  }

  // ---------------------------------------------------------------------------
  // toMelString

  /** The translation table of `toMelString`: '(' and ',' are deleted, ')'
      becomes a space, every other character is kept. */
  function TranslateChar(c: char): string {
    if c == '(' || c == ',' then "" else if c == ')' then " " else [c]
  }

  function Count(s: string, c: char): (n: nat)
    ensures n <= |s|
  {
    if s == [] then 0 else (if s[0] == c then 1 else 0) + Count(s[1..], c)
  }

  /** `toMelString` on the text `str(val)`: e.g. "(1, 2, 3)" becomes "1 2 3 ". */
  function ToMelString(s: string): (r: string)
    ensures |r| == |s| - Count(s, '(') - Count(s, ',')
    ensures '(' !in r && ',' !in r && ')' !in r
  {
    if s == [] then "" else TranslateChar(s[0]) + ToMelString(s[1..])
  }

  lemma CountConcat(a: string, b: string, c: char)
    ensures Count(a + b, c) == Count(a, c) + Count(b, c)
  {
    if a == [] {
      assert a + b == b;
    } else {
      assert (a + b)[1..] == a[1..] + b;
      CountConcat(a[1..], b, c);
    }
  }

  /** Every ')' becomes a space and every space stays one. */
  lemma {:induction false} ToMelStringSpaces(s: string)
    ensures Count(ToMelString(s), ' ') == Count(s, ' ') + Count(s, ')')
  {
    if s != [] {
      ToMelStringSpaces(s[1..]);
      CountConcat(TranslateChar(s[0]), ToMelString(s[1..]), ' ');
    }
  }

  /** The translation works character by character: it distributes over concatenation. */
  lemma {:induction false} ToMelStringConcat(a: string, b: string)
    ensures ToMelString(a + b) == ToMelString(a) + ToMelString(b)
  {
    if a == [] {
      assert a + b == b;
    } else {
      assert (a + b)[1..] == a[1..] + b;
      ToMelStringConcat(a[1..], b);
    }
  }

  /** Text without brackets or commas passes through unchanged. */
  lemma {:induction false} ToMelStringKeepsPlainText(s: string)
    requires '(' !in s && ',' !in s && ')' !in s
    ensures ToMelString(s) == s
  {
    if s != [] {
      assert s == [s[0]] + s[1..];
      ToMelStringKeepsPlainText(s[1..]);
    }
  }

  /** Translating twice is translating once. */
  lemma ToMelStringIdempotent(s: string)
    ensures ToMelString(ToMelString(s)) == ToMelString(s)
  {
    ToMelStringKeepsPlainText(ToMelString(s));
  }

  // ---------------------------------------------------------------------------
  // binarySearchTree

  ghost predicate IsSorted(s: seq<real>) {
    forall i, j :: 0 <= i <= j < |s| ==> s[i] <= s[j]
  }

  /** The number of leading entries of `s` that are at most `key`. */
  function PrefixAtMost(s: seq<real>, key: real): (n: nat)
    ensures n <= |s|
  {
    if s == [] || s[0] > key then 0 else 1 + PrefixAtMost(s[1..], key)
  }

  /** The segment a lookup of `key` in a cumulative table lands in: the
      entries from index 1 on that are at most `key`, counted from the front. */
  function SearchIndex(tree: seq<real>, key: real): (j: nat)
    requires |tree| > 0
    ensures j < |tree|
  {
    PrefixAtMost(tree[1..], key)
  }

  /** The leading run really is at most `key`, and the entry after it is above `key`. */
  lemma {:induction false} PrefixAtMostBounds(s: seq<real>, key: real)
    ensures forall k :: 0 <= k < PrefixAtMost(s, key) ==> s[k] <= key
    ensures PrefixAtMost(s, key) < |s| ==> s[PrefixAtMost(s, key)] > key
  {
    if s != [] && s[0] <= key {
      PrefixAtMostBounds(s[1..], key);
    }
  }

  /** A run of entries at most `key` followed by the end or a larger entry is the leading run. */
  lemma {:induction false} PrefixAtMostUnique(s: seq<real>, key: real, m: nat)
    requires m <= |s|
    requires forall k :: 0 <= k < m ==> s[k] <= key
    requires m < |s| ==> s[m] > key
    ensures PrefixAtMost(s, key) == m
  {
    if m > 0 {
      PrefixAtMostUnique(s[1..], key, m - 1);
    }
  }

  /** A larger key never gives a shorter run. */
  lemma {:induction false} PrefixAtMostMonotone(s: seq<real>, key1: real, key2: real)
    requires key1 <= key2
    ensures PrefixAtMost(s, key1) <= PrefixAtMost(s, key2)
  {
    if s != [] && s[0] <= key1 {
      PrefixAtMostMonotone(s[1..], key1, key2);
    }
  }

  /** `binarySearchTree`: a lower-bound search over `tree[1..]`, returning the
      segment index and the distance of `key` past that entry. */
  method BinarySearchTree(tree: seq<real>, key: real) returns (index: nat, remainder: real)
    requires |tree| > 0
    ensures index < |tree|
    ensures remainder == key - tree[index]
    ensures index >= 1 ==> tree[index] <= key
    ensures index + 1 < |tree| ==> key < tree[index + 1]
    ensures IsSorted(tree) ==> index == SearchIndex(tree, key)
    ensures IsSorted(tree) ==> forall k :: 1 <= k <= index ==> tree[k] <= key
    ensures IsSorted(tree) ==> (index == |tree| - 1 <==> forall k :: 1 <= k < |tree| ==> tree[k] <= key)
  {
    var low, high := 1, |tree|;
    while low < high
      invariant 1 <= low <= high <= |tree|
      invariant low > 1 ==> tree[low - 1] <= key
      invariant high < |tree| ==> key < tree[high]
      invariant IsSorted(tree) ==> forall k :: 1 <= k < low ==> tree[k] <= key
      invariant IsSorted(tree) ==> forall k :: high <= k < |tree| ==> key < tree[k]
      decreases high - low
    {
      var mid := (low + high) / 2;
      if tree[mid] <= key {
        low := mid + 1;
      } else {
        high := mid;
      }
    }
    index, remainder := low - 1, key - tree[low - 1];
    if IsSorted(tree) {
      PrefixAtMostUnique(tree[1..], key, index);
    }
  }
}
