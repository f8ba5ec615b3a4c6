/** The second narrowing of the corner locator: out of more than three
    candidates, the three whose centres come closest to a right triangle. */
module Triplet {
  import opened Geometry
  import opened Candidates
  import opened Hierarchy

  /** Three values in ascending order. */
  function Sort3(a: int, b: int, c: int): (r: seq<int>)
    ensures |r| == 3 && r[0] <= r[1] <= r[2]
    ensures r[0] <= a && r[0] <= b && r[0] <= c && (r[0] == a || r[0] == b || r[0] == c)
    ensures r[2] >= a && r[2] >= b && r[2] >= c && (r[2] == a || r[2] == b || r[2] == c)
    ensures r[0] + r[1] + r[2] == a + b + c
  {
    if a <= b then
      if b <= c then [a, b, c]
      else if a <= c then [a, c, b]
      else [c, a, b]
    else
      if a <= c then [b, a, c]
      else if b <= c then [b, c, a]
      else [c, b, a]
  }

  /** How far the triangle p, q, r is from satisfying Pythagoras: the sum of
      the two smaller squared sides minus the largest, in absolute value. The
      sides are listed (p r), (p q), (q r) before sorting. */
  function Residual(p: Point, q: Point, r: Point): (e: nat)
  {
    var s := Sort3(SqrDist(p, r), SqrDist(p, q), SqrDist(q, r));
    Abs(s[0] + s[1] - s[2])
  }

  /** The residual at a single vertex v of the triangle v, a, b:
      |v a|^2 + |v b|^2 - |a b|^2 in absolute value. */
  function VertexResidual(v: Point, a: Point, b: Point): (e: nat)
  {
    Abs(SqrDist(v, a) + SqrDist(v, b) - SqrDist(a, b))
  }

  /** For non-negative x, y, z the sorted Pythagorean residual is the least of
      the three residuals obtained by taking each value as the largest. */
  lemma SortedResidualIsLeast(x: int, y: int, z: int)
    requires x >= 0 && y >= 0 && z >= 0
    ensures var s := Sort3(x, y, z);
      var e := Abs(s[0] + s[1] - s[2]);
      e <= Abs(x + y - z) && e <= Abs(x + z - y) && e <= Abs(y + z - x) &&
      (e == Abs(x + y - z) || e == Abs(x + z - y) || e == Abs(y + z - x))
  {
  }

  /** The triangle residual is the least vertex residual, which is twice the
      absolute dot product at that vertex; in particular it is zero exactly
      when the triangle has a right angle at one of its corners. */
  lemma ResidualIsLeastVertexResidual(p: Point, q: Point, r: Point)
    ensures Residual(p, q, r) <= VertexResidual(p, q, r)
    ensures Residual(p, q, r) <= VertexResidual(q, p, r)
    ensures Residual(p, q, r) <= VertexResidual(r, p, q)
    ensures Residual(p, q, r) == VertexResidual(p, q, r) ||
            Residual(p, q, r) == VertexResidual(q, p, r) ||
            Residual(p, q, r) == VertexResidual(r, p, q)
    ensures Residual(p, q, r) == 0 <==> Dot(p, q, r) == 0 || Dot(q, p, r) == 0 || Dot(r, p, q) == 0
  {
    SqrDistProperties(p, q);
    SqrDistProperties(p, r);
    SqrDistProperties(q, r);
    SortedResidualIsLeast(SqrDist(p, r), SqrDist(p, q), SqrDist(q, r));
    LawOfCosines(p, q, r);
    LawOfCosines(q, p, r);
    LawOfCosines(r, p, q);
  }

  /** A choice of three positions i < j < k among n. */
  datatype Triple = Triple(i: nat, j: nat, k: nat)

  predicate ValidTriple(t: Triple, n: nat)
  {
    t.i < t.j < t.k < n
  }

  /** Lexicographic order on triples. */
  predicate Before(t: Triple, u: Triple)
  {
    t.i < u.i || (t.i == u.i && (t.j < u.j || (t.j == u.j && t.k < u.k)))
  }

  function Err(centers: seq<Point>, t: Triple): (e: nat)
    requires ValidTriple(t, |centers|)
  {
    Residual(centers[t.i], centers[t.j], centers[t.k])
  }

  /** t is the triple of least residual, and the lexicographically first one
      among those of least residual. */
  ghost predicate BestOf(centers: seq<Point>, t: Triple)
  {
    ValidTriple(t, |centers|) &&
    (forall u :: ValidTriple(u, |centers|) ==> Err(centers, t) <= Err(centers, u)) &&
    (forall u :: ValidTriple(u, |centers|) && Before(u, t) ==> Err(centers, t) < Err(centers, u))
  }

  /** At most one triple is best. */
  lemma BestIsUnique(centers: seq<Point>, t: Triple, u: Triple)
    requires BestOf(centers, t) && BestOf(centers, u)
    ensures t == u
  {
  }

  /** The search state after visiting every valid triple before pos: when
      something was visited, best is a visited triple of residual minErr that
      no visited triple beats, and every visited triple ahead of best is
      strictly worse. */
  ghost predicate Scanned(centers: seq<Point>, found: bool, best: Triple, minErr: int, pos: Triple)
  {
    var n := |centers|;
    (found ==> ValidTriple(best, n) && Before(best, pos) && minErr == Err(centers, best)) &&
    (!found ==> forall u :: ValidTriple(u, n) ==> !Before(u, pos)) &&
    (forall u :: ValidTriple(u, n) && Before(u, pos) ==>
      minErr <= Err(centers, u) && (Before(u, best) ==> minErr < Err(centers, u)))
  }

  /** Visiting triple t with a strict-improvement update keeps the search
      state valid for the position just after t. */
  lemma ScanStep(centers: seq<Point>, found: bool, best: Triple, minErr: int, t: Triple,
                 best': Triple, minErr': int)
    requires ValidTriple(t, |centers|)
    requires Scanned(centers, found, best, minErr, t)
    requires if !found || Err(centers, t) < minErr
             then best' == t && minErr' == Err(centers, t)
             else best' == best && minErr' == minErr
    ensures Scanned(centers, true, best', minErr', Triple(t.i, t.j, t.k + 1))
  {
    var n := |centers|;
    var next := Triple(t.i, t.j, t.k + 1);
    assert forall u :: ValidTriple(u, n) && Before(u, next) ==> Before(u, t) || u == t;
  }

  /** After the last k for (i, j) the search moves on to (i, j + 1, j + 2);
      no valid triple lies between the two positions. */
  lemma ScanNextJ(centers: seq<Point>, found: bool, best: Triple, minErr: int, i: nat, j: nat)
    requires i < j && j + 1 < |centers|
    requires Scanned(centers, found, best, minErr, Triple(i, j, |centers|))
    ensures Scanned(centers, found, best, minErr, Triple(i, j + 1, j + 2))
  {
  }

  /** After the last j for i the search moves on to (i + 1, i + 2, i + 3). */
  lemma ScanNextI(centers: seq<Point>, found: bool, best: Triple, minErr: int, i: nat)
    requires i + 2 < |centers|
    requires Scanned(centers, found, best, minErr, Triple(i, |centers| - 1, |centers|))
    ensures Scanned(centers, found, best, minErr, Triple(i + 1, i + 2, i + 3))
  {
  }

  /** Once every valid triple has been visited the search state names the
      best triple. */
  lemma ScanDone(centers: seq<Point>, found: bool, best: Triple, minErr: int)
    requires |centers| >= 3
    requires Scanned(centers, found, best, minErr, Triple(|centers| - 2, |centers| - 1, |centers|))
    ensures BestOf(centers, best)
  {
    var n := |centers|;
    assert ValidTriple(Triple(0, 1, 2), n) && Before(Triple(0, 1, 2), Triple(n - 2, n - 1, n));
    assert forall u :: ValidTriple(u, n) ==> Before(u, Triple(n - 2, n - 1, n));
  }

  /** The innermost loop of the search: every k for the pair (i, j), in
      ascending order. */
  method ScanK(centers: seq<Point>, i: nat, j: nat, found: bool, best: Triple, minErr: int)
    returns (found': bool, best': Triple, minErr': int)
    requires i < j && j + 1 < |centers|
    requires Scanned(centers, found, best, minErr, Triple(i, j, j + 1))
    ensures Scanned(centers, found', best', minErr', Triple(i, j, |centers|))
  {
    found', best', minErr' := found, best, minErr;
    var k := j + 1;
    while k != |centers|
      invariant j + 1 <= k <= |centers|
      invariant Scanned(centers, found', best', minErr', Triple(i, j, k))
    {
      var e := Residual(centers[i], centers[j], centers[k]);
      ghost var found0, best0, minErr0 := found', best', minErr';
      if !found' || e < minErr' {
        minErr' := e;
        best' := Triple(i, j, k);
      }
      found' := true;
      ScanStep(centers, found0, best0, minErr0, Triple(i, j, k), best', minErr');
      k := k + 1;
    }
  }

  /** The middle loop of the search: every pair (j, k) for i. */
  method ScanJ(centers: seq<Point>, i: nat, found: bool, best: Triple, minErr: int)
    returns (found': bool, best': Triple, minErr': int)
    requires i + 2 < |centers|
    requires Scanned(centers, found, best, minErr, Triple(i, i + 1, i + 2))
    ensures Scanned(centers, found', best', minErr', Triple(i, |centers| - 1, |centers|))
  {
    found', best', minErr' := found, best, minErr;
    var j := i + 1;
    while j + 1 != |centers|
      invariant i + 1 <= j <= |centers| - 1
      invariant Scanned(centers, found', best', minErr', Triple(i, j, j + 1))
    {
      found', best', minErr' := ScanK(centers, i, j, found', best', minErr');
      ScanNextJ(centers, found', best', minErr', i, j);
      j := j + 1;
    }
  }

  /** Exhaustive search over all i < j < k in lexicographic order, replacing
      the best triple only on a strictly smaller residual. */
  method BestTriplet(centers: seq<Point>) returns (best: Triple)
    requires |centers| >= 3
    ensures BestOf(centers, best)
  {
    var n := |centers|;
    var i := 0;
    var found := false;
    var minErr := 0;
    best := Triple(0, 1, 2);
    while i + 2 != n
      invariant 0 <= i <= n - 2
      invariant Scanned(centers, found, best, minErr, Triple(i, i + 1, i + 2))
    {
      found, best, minErr := ScanJ(centers, i, found, best, minErr);
      ScanNextI(centers, found, best, minErr, i);
      i := i + 1;
    }
    ScanDone(centers, found, best, minErr);
  }

  /** Centres of a list of contours. */
  function Centers(cs: seq<Contour>): (r: seq<Point>)
    requires AllTraced(cs)
    ensures |r| == |cs| && forall k :: 0 <= k < |cs| ==> r[k] == PixelListCenter(cs[k].points)
  {
    seq(|cs|, k requires 0 <= k < |cs| => PixelListCenter(cs[k].points))
  }

  /** The three contours, in their original order, whose centres form the
      triangle of least Pythagorean residual (first such triple on ties). */
  method FilterWithPositions(cs: seq<Contour>) returns (r: seq<Contour>)
    requires |cs| >= 3 && AllTraced(cs)
    ensures exists t :: BestOf(Centers(cs), t) && r == [cs[t.i], cs[t.j], cs[t.k]]
  {
    var centers := Centers(cs);
    var t := BestTriplet(centers);
    r := [cs[t.i], cs[t.j], cs[t.k]];
  }

  /** The marker candidates of a traced image, selected by the depths the
      hierarchy gives its contours. */
  method MarkerContours(cs: seq<Contour>, h: seq<Link>, ghost rank: seq<nat>) returns (cand: seq<Contour>)
    requires AllTraced(cs) && Forest(h, rank) && |h| == |cs|
    ensures cand == MarkerCandidates(cs, DepthTable(h, rank))
  {
    var depth := ContourDepths(h, rank);
    cand := MarkerCandidates(cs, depth);
  }

  /** The narrowing step of the corner locator: more than three candidates
      are cut down to the best right triangle, fewer pass unchanged. */
  method NarrowCandidates(cand: seq<Contour>) returns (r: seq<Contour>)
    requires AllTraced(cand)
    ensures if |cand| > 3 then
        exists t :: BestOf(Centers(cand), t) && r == [cand[t.i], cand[t.j], cand[t.k]]
      else r == cand
  {
    r := cand;
    if |r| > 3 {
      r := FilterWithPositions(r);
    }
  }

  /** The corner locator up to, but not including, the polar re-ordering:
      the marker candidates under the depths of the traced hierarchy,
      narrowed to the best right triangle when more than three remain. */
  method CornerContours(cs: seq<Contour>, h: seq<Link>, ghost rank: seq<nat>) returns (r: seq<Contour>)
    requires AllTraced(cs) && Forest(h, rank) && |h| == |cs|
    ensures var cand := MarkerCandidates(cs, DepthTable(h, rank));
      if |cand| > 3 then
        exists t :: BestOf(Centers(cand), t) && r == [cand[t.i], cand[t.j], cand[t.k]]
      else r == cand
  {
    var cand := MarkerContours(cs, h, rank);
    r := NarrowCandidates(cand);
  }
}
