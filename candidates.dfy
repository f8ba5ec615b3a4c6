/** The first narrowing of the corner locator: from all traced contours to
    the candidates that are nested deeply enough, long enough and square
    enough to be one of the printed corner markers. */
module Candidates {
  import opened Geometry

  /** A traced contour: its boundary pixels and the bounding box the tracer
      reports for it. */
  datatype Contour = Contour(points: seq<Point>, box: Rect)

  /** What the tracer guarantees of a contour: at least one pixel, all at
      non-negative coordinates, and a box at least one pixel wide and high. */
  predicate Traced(c: Contour)
  {
    |c.points| > 0 && NonNegative(c.points) && c.box.w >= 1 && c.box.h >= 1
  }

  predicate AllTraced(cs: seq<Contour>)
  {
    forall k :: 0 <= k < |cs| ==> Traced(cs[k])
  }

  /** Nesting depth of the printed marker as seen by the edge detector. */
  const MarkerDepth: nat := 6

  /** The elements of s that satisfy p, in their original order. */
  function Keep<T>(s: seq<T>, p: T -> bool): (r: seq<T>)
    ensures |r| <= |s|
    ensures forall k :: 0 <= k < |r| ==> r[k] in s && p(r[k])
    ensures forall k :: 0 <= k < |s| && p(s[k]) ==> s[k] in r
  {
    if s == [] then []
    else (if p(s[0]) then [s[0]] else []) + Keep(s[1..], p)
  }

  /** Keeping distributes over concatenation, so Keep preserves the relative
      order of the elements it keeps. */
  lemma {:induction false} KeepAppend<T>(a: seq<T>, b: seq<T>, p: T -> bool)
    ensures Keep(a + b, p) == Keep(a, p) + Keep(b, p)
  {
    if a != [] {
      var head := if p(a[0]) then [a[0]] else [];
      assert (a + b)[0] == a[0];
      assert (a + b)[1..] == a[1..] + b;
      KeepAppend(a[1..], b, p);
      calc {
        Keep(a + b, p);
        head + Keep(a[1..] + b, p);
        head + (Keep(a[1..], p) + Keep(b, p));
        (head + Keep(a[1..], p)) + Keep(b, p);
      }
    } else {
      assert a + b == b;
    }
  }

  /** The positions in s, from position i on, of the elements that satisfy
      p, ascending. */
  function KeepIndices<T>(s: seq<T>, p: T -> bool, i: nat): (idx: seq<nat>)
    requires i <= |s|
    ensures StrictlyIncreasing(idx) && forall k :: 0 <= k < |idx| ==> i <= idx[k] < |s|
    decreases |s| - i
  {
    if i == |s| then []
    else
      var rest := KeepIndices(s, p, i + 1);
      (if p(s[i]) then [i] else []) + rest
  }

  /** Keep takes exactly the elements at KeepIndices: the kept elements form
      a subsequence of s in their original order. */
  lemma {:induction false} KeepAtIndices<T>(s: seq<T>, p: T -> bool, i: nat)
    requires i <= |s|
    ensures var idx := KeepIndices(s, p, i);
      |idx| == |Keep(s[i..], p)| &&
      forall k :: 0 <= k < |idx| ==> Keep(s[i..], p)[k] == s[idx[k]]
    decreases |s| - i
  {
    if i < |s| {
      KeepAtIndices(s, p, i + 1);
      assert s[i..][1..] == s[i + 1..];
      assert Keep(s[i..], p) == (if p(s[i]) then [s[i]] else []) + Keep(s[i + 1..], p);
    }
  }

  function Range(n: nat): (r: seq<nat>)
    ensures |r| == n && forall k :: 0 <= k < n ==> r[k] == k
  {
    seq(n, k => k)
  }

  /** Indices of the contours whose depth is the marker depth, ascending. */
  function MarkerIndices(n: nat, depth: map<int, nat>): (r: seq<nat>)
    ensures forall k :: 0 <= k < |r| ==> r[k] < n && r[k] in depth && depth[r[k]] == MarkerDepth
    ensures forall i :: 0 <= i < n && i in depth && depth[i] == MarkerDepth ==> i in r
    ensures StrictlyIncreasing(r)
  {
    var all := Range(n);
    var r := Keep(all, i => i in depth && depth[i] == MarkerDepth);
    assert forall i :: 0 <= i < n && i in depth && depth[i] == MarkerDepth ==> all[i] in r;
    var idx := KeepIndices(all, i => i in depth && depth[i] == MarkerDepth, 0);
    KeepAtIndices(all, i => i in depth && depth[i] == MarkerDepth, 0);
    assert all[0..] == all;
    assert forall k :: 0 <= k < |r| ==> r[k] == idx[k];
    r
  }

  function Select(cs: seq<Contour>, idx: seq<nat>): (r: seq<Contour>)
    requires forall k :: 0 <= k < |idx| ==> idx[k] < |cs|
    ensures |r| == |idx| && forall k :: 0 <= k < |idx| ==> r[k] == cs[idx[k]]
  {
    seq(|idx|, k requires 0 <= k < |idx| => cs[idx[k]])
  }

  /** The contours at the marker depth. */
  function AtMarkerDepth(cs: seq<Contour>, depth: map<int, nat>): (r: seq<Contour>)
    ensures forall c :: c in r ==> exists i :: 0 <= i < |cs| && cs[i] == c && i in depth && depth[i] == MarkerDepth
    ensures forall i :: 0 <= i < |cs| && i in depth && depth[i] == MarkerDepth ==> cs[i] in r
  {
    var idx := MarkerIndices(|cs|, depth);
    var r := Select(cs, idx);
    assert forall i :: 0 <= i < |cs| && i in depth && depth[i] == MarkerDepth ==>
      exists k :: 0 <= k < |idx| && idx[k] == i && r[k] == cs[i];
    r
  }

  /** Total number of boundary pixels over all contours. */
  function TotalLength(cs: seq<Contour>): (r: nat)
  {
    if cs == [] then 0 else TotalLength(cs[..|cs| - 1]) + |cs[|cs| - 1].points|
  }

  /** A contour is longer than the mean length over all n traced contours
      whose lengths add up to total: |c| > total / n, in integers. */
  predicate LongerThanMean(c: Contour, total: nat, n: nat)
  {
    |c.points| * n > total
  }

  /** The bounding box is nearly square: longer side / shorter side <= 1.05. */
  predicate NearlySquare(b: Rect)
  {
    var longer := if b.h > b.w then b.h else b.w;
    var shorter := if b.h < b.w then b.h else b.w;
    100 * longer <= 105 * shorter
  }

  /** The shape filter, over boxes of at least one pixel (a zero side would
      divide by zero in the ratio). */
  function FilterWithShape(cs: seq<Contour>): (r: seq<Contour>)
    requires AllTraced(cs)
    ensures forall c :: c in r ==> c in cs && NearlySquare(c.box)
    ensures forall c :: c in cs && NearlySquare(c.box) ==> c in r
  {
    Keep(cs, (c: Contour) => NearlySquare(c.box))
  }

  /** The candidates: contours at the marker depth, longer than the mean
      length of ALL traced contours (the mean is taken before filtering), and
      with a nearly square box. */
  function MarkerCandidates(cs: seq<Contour>, depth: map<int, nat>): (r: seq<Contour>)
    requires AllTraced(cs)
    ensures |r| <= |cs| && AllTraced(r)
    ensures forall c :: c in r ==>
      (exists i :: 0 <= i < |cs| && cs[i] == c && i in depth && depth[i] == MarkerDepth) &&
      LongerThanMean(c, TotalLength(cs), |cs|) && NearlySquare(c.box)
    ensures forall i ::
      (0 <= i < |cs| && i in depth && depth[i] == MarkerDepth &&
       LongerThanMean(cs[i], TotalLength(cs), |cs|) && NearlySquare(cs[i].box)) ==> cs[i] in r
  {
    var total, n := TotalLength(cs), |cs|;
    var deep := AtMarkerDepth(cs, depth);
    var long := Keep(deep, (c: Contour) => LongerThanMean(c, total, n));
    assert |deep| <= |cs| by {
      assert |MarkerIndices(|cs|, depth)| <= |Range(|cs|)|;
    }
    assert AllTraced(long);
    FilterWithShape(long)
  }

  /** r is made of elements of s at the ascending positions idx. */
  ghost predicate Picks<T>(r: seq<T>, s: seq<T>, idx: seq<nat>)
  {
    |idx| == |r| && StrictlyIncreasing(idx) &&
    forall k :: 0 <= k < |r| ==> idx[k] < |s| && r[k] == s[idx[k]]
  }

  lemma KeepPicks<T>(s: seq<T>, p: T -> bool) returns (idx: seq<nat>)
    ensures Picks(Keep(s, p), s, idx)
  {
    idx := KeepIndices(s, p, 0);
    KeepAtIndices(s, p, 0);
    assert s[0..] == s;
  }

  /** Picking from a pick is a pick. */
  lemma PicksCompose<T>(r: seq<T>, s: seq<T>, t: seq<T>, i1: seq<nat>, i2: seq<nat>) returns (idx: seq<nat>)
    requires Picks(s, t, i1) && Picks(r, s, i2)
    ensures Picks(r, t, idx)
  {
    idx := seq(|r|, k requires 0 <= k < |r| => i1[i2[k]]);
    assert StrictlyIncreasing(idx) by {
      forall a, b | 0 <= a < b < |idx|
        ensures idx[a] < idx[b]
      {
        assert i2[a] < i2[b];
      }
    }
  }

  /** The candidates keep the order of the traced contours: they are
      cs[idx[0]], cs[idx[1]], ... for some ascending list of indices. */
  lemma MarkerCandidatesKeepOrder(cs: seq<Contour>, depth: map<int, nat>)
    requires AllTraced(cs)
    ensures exists idx :: Picks(MarkerCandidates(cs, depth), cs, idx)
  {
    var total, n := TotalLength(cs), |cs|;
    var mi := MarkerIndices(|cs|, depth);
    var deep := AtMarkerDepth(cs, depth);
    assert Picks(deep, cs, mi);
    var longer := (c: Contour) => LongerThanMean(c, total, n);
    var long := Keep(deep, longer);
    var i1 := KeepPicks(deep, longer);
    var i2 := PicksCompose(long, deep, cs, mi, i1);
    var square := (c: Contour) => NearlySquare(c.box);
    var r := Keep(long, square);
    assert r == MarkerCandidates(cs, depth);
    var i3 := KeepPicks(long, square);
    var idx := PicksCompose(r, long, cs, i2, i3);
  }

  /** Worked boundary cases of the shape test: 21 x 20 passes (ratio exactly
      1.05), 22 x 20 fails, and the test ignores which side is the longer. */
  lemma ShapeToleranceExamples()
    ensures NearlySquare(Rect(0, 0, 21, 20)) && NearlySquare(Rect(0, 0, 20, 21))
    ensures !NearlySquare(Rect(0, 0, 22, 20)) && !NearlySquare(Rect(0, 0, 20, 22))
  {
  }
}
