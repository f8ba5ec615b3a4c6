/** The last step of the corner locator: with the three markers already in
    anti-clockwise order around their centroid, rotate that order so that it
    starts at the marker carrying the right angle. */
module Rearrange {
  import opened Geometry
  import opened Candidates
  import opened Triplet

  /** The residual of position t1 in the cyclic order: its squared distances
      to the next two positions t2 = t1 + 1 and t3 = t1 + 2 (mod n) against
      the squared distance between those two. */
  function AngleResidual(centers: seq<Point>, t1: nat): (e: nat)
    requires t1 < |centers|
  {
    var n := |centers|;
    var t2 := (t1 + 1) % n;
    var t3 := (t2 + 1) % n;
    VertexResidual(centers[t1], centers[t2], centers[t3])
  }

  /** a has the least angle residual, and is the first position that has it. */
  ghost predicate IsRightAngleIndex(centers: seq<Point>, a: nat)
  {
    a < |centers| &&
    (forall t :: 0 <= t < |centers| ==> AngleResidual(centers, a) <= AngleResidual(centers, t)) &&
    (forall t :: 0 <= t < a ==> AngleResidual(centers, a) < AngleResidual(centers, t))
  }

  /** The scan over every position, replacing the candidate only when the
      current minimum is strictly larger. */
  method RightAngleIndex(centers: seq<Point>) returns (a: nat)
    ensures |centers| > 0 ==> IsRightAngleIndex(centers, a)
    ensures |centers| == 0 ==> a == 0
  {
    a := 0;
    var found := false;
    var minErr := 0;
    for t1 := 0 to |centers|
      invariant found <==> t1 > 0
      invariant a <= t1
      invariant found ==> a < t1 && minErr == AngleResidual(centers, a)
      invariant forall t :: 0 <= t < t1 ==> minErr <= AngleResidual(centers, t)
      invariant forall t :: 0 <= t < a ==> minErr < AngleResidual(centers, t)
      invariant !found ==> a == 0
    {
      var diff := AngleResidual(centers, t1);
      if !found || minErr > diff {
        minErr := diff;
        a := t1;
      }
      found := true;
    }
  }

  /** At most one position is the right-angle index. */
  lemma RightAngleIndexUnique(centers: seq<Point>, a: nat, b: nat)
    requires IsRightAngleIndex(centers, a) && IsRightAngleIndex(centers, b)
    ensures a == b
  {
    var ea, eb := AngleResidual(centers, a), AngleResidual(centers, b);
  }

  /** The vertex residual does not depend on the order of the two other
      corners, and is twice the absolute dot product at the vertex: zero
      exactly at a right angle. */
  lemma VertexResidualIsDot(v: Point, a: Point, b: Point)
    ensures VertexResidual(v, a, b) == VertexResidual(v, b, a)
    ensures VertexResidual(v, a, b) == 2 * Abs(Dot(v, a, b))
  {
    SqrDistProperties(a, b);
    LawOfCosines(v, a, b);
  }

  /** For three markers the chosen corner attains the triangle's residual
      from the triplet search, so the triangle's best right angle is the one
      that ends up first. */
  lemma RightAngleAttainsResidual(centers: seq<Point>, a: nat)
    requires |centers| == 3 && IsRightAngleIndex(centers, a)
    ensures AngleResidual(centers, a) == Residual(centers[0], centers[1], centers[2])
  {
    var p, q, r := centers[0], centers[1], centers[2];
    ResidualIsLeastVertexResidual(p, q, r);
    VertexResidualIsDot(q, r, p);
    VertexResidualIsDot(r, p, q);
    assert AngleResidual(centers, 0) == VertexResidual(p, q, r);
    assert AngleResidual(centers, 1) == VertexResidual(q, p, r);
    assert AngleResidual(centers, 2) == VertexResidual(r, p, q);
  }

  /** The order [a, a + 1, ..., a + n - 1] (mod n) applied to s. */
  function Rotate<T>(s: seq<T>, a: nat): (r: seq<T>)
    ensures |r| == |s|
  {
    var n := |s|;
    seq(n, k requires 0 <= k < n => s[(a + k) % n])
  }

  /** Reduction modulo n of a value below 2 n. */
  lemma ModOfSmall(x: nat, n: nat)
    requires 0 < n && x < 2 * n
    ensures x % n == if x < n then x else x - n
  {
    if x >= n {
      assert (x - n) % n == x % n by {
        assert x == (x - n) + n;
      }
    }
  }

  /** Rotating by a < n moves the suffix from a to the front. */
  lemma RotateIsSplice<T>(s: seq<T>, a: nat)
    requires a < |s|
    ensures Rotate(s, a) == s[a..] + s[..a]
  {
    var n := |s|;
    var r := Rotate(s, a);
    forall k | 0 <= k < n
      ensures r[k] == (s[a..] + s[..a])[k]
    {
      ModOfSmall(a + k, n);
    }
  }

  /** A rotation starts at position a and is a permutation of s. */
  lemma RotatePermutes<T>(s: seq<T>, a: nat)
    requires a < |s|
    ensures Rotate(s, a)[0] == s[a]
    ensures multiset(Rotate(s, a)) == multiset(s)
  {
    RotateIsSplice(s, a);
    assert s == s[..a] + s[a..];
  }

  /** A rotation keeps the cyclic order: the element that follows position k
      of the rotation is the element that follows it in s. */
  lemma RotateKeepsCyclicOrder<T>(s: seq<T>, a: nat, k: nat)
    requires a < |s| && k < |s|
    ensures var n := |s|; var m := (a + k) % n;
      Rotate(s, a)[k] == s[m] && Rotate(s, a)[(k + 1) % n] == s[(m + 1) % n]
  {
    var n := |s|;
    ModOfSmall(a + k, n);
    var m := (a + k) % n;
    ModOfSmall(k + 1, n);
    var k' := (k + 1) % n;
    ModOfSmall(m + 1, n);
    ModOfSmall(a + k', n);
    assert (a + k') % n == (m + 1) % n;
    assert Rotate(s, a)[k'] == s[(a + k') % n];
  }

  /** Rearrange contours that are already in anti-clockwise polar order so
      that the right-angle contour comes first, keeping the cyclic order. */
  method RearrangeContours(sorted: seq<Contour>) returns (r: seq<Contour>)
    requires AllTraced(sorted)
    ensures |sorted| > 0 ==> exists a :: IsRightAngleIndex(Centers(sorted), a) && r == Rotate(sorted, a)
    ensures |sorted| == 0 ==> r == []
  {
    var centers := Centers(sorted);
    var a := RightAngleIndex(centers);
    r := Rotate(sorted, a);
  }
}
