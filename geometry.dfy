/** Integer plane geometry shared by the corner locator and the orientation
    corrector: pixel points, squared distances, contour centres and the
    parallelogram completion that infers the fourth sheet corner. */
module Geometry {

  /** A pixel position (column, row). */
  datatype Point = Point(x: int, y: int)

  /** An axis-aligned bounding box as the boundary tracer reports it:
      left column, top row, width, height. */
  datatype Rect = Rect(x: int, y: int, w: int, h: int)

  datatype Option<T> = None | Some(value: T)

  function Sqr(a: int): (r: int)
  {
    a * a
  }

  function Abs(a: int): (r: nat)
  {
    if a < 0 then -a else a
  }

  /** Squared Euclidean distance of two pixels, computed exactly on integers. */
  function SqrDist(p: Point, q: Point): (r: int)
  {
    Sqr(p.x - q.x) + Sqr(p.y - q.y)
  }

  lemma SquareNonNegative(a: int)
    ensures Sqr(a) >= 0
    ensures Sqr(a) == 0 <==> a == 0
  {
    if a < 0 {
      assert Sqr(a) == (-a) * (-a);
    }
  }

  /** The squared distance is a metric-like quantity: non-negative, symmetric,
      and zero exactly when the two pixels coincide. */
  lemma SqrDistProperties(p: Point, q: Point)
    ensures SqrDist(p, q) >= 0
    ensures SqrDist(p, q) == SqrDist(q, p)
    ensures SqrDist(p, q) == 0 <==> p == q
  {
    SquareNonNegative(p.x - q.x);
    SquareNonNegative(p.y - q.y);
    assert Sqr(p.x - q.x) == Sqr(q.x - p.x);
    assert Sqr(p.y - q.y) == Sqr(q.y - p.y);
  }

  /** Dot product of the vectors a -> b and a -> c. */
  function Dot(a: Point, b: Point, c: Point): (r: int)
  {
    (b.x - a.x) * (c.x - a.x) + (b.y - a.y) * (c.y - a.y)
  }

  /** Law of cosines in integers: |bc|^2 = |ab|^2 + |ac|^2 - 2 (ab . ac).
      Hence |ab|^2 + |ac|^2 - |bc|^2 is twice the dot product at a, and it is
      zero exactly when the angle at a is a right angle. */
  lemma LawOfCosines(a: Point, b: Point, c: Point)
    ensures SqrDist(a, b) + SqrDist(a, c) - SqrDist(b, c) == 2 * Dot(a, b, c)
  {
    var ux, uy, vx, vy := b.x - a.x, b.y - a.y, c.x - a.x, c.y - a.y;
    assert c.x - b.x == vx - ux && c.y - b.y == vy - uy;
    assert Sqr(vx - ux) == Sqr(vx) - 2 * ux * vx + Sqr(ux);
    assert Sqr(vy - uy) == Sqr(vy) - 2 * uy * vy + Sqr(uy);
    assert Sqr(a.x - b.x) == Sqr(ux) && Sqr(a.y - b.y) == Sqr(uy);
    assert Sqr(a.x - c.x) == Sqr(vx) && Sqr(a.y - c.y) == Sqr(vy);
  }

  /** The fourth corner of the sheet from the centres of the other three,
      given in the order top-left p1, bottom-left p2, top-right p3: the vector
      sum p1 + (p2 - p1) + (p3 - p1). Anything but exactly three centres
      fails the source's assertion. */
  function LastCorner(centers: seq<Point>): (r: Option<Point>)
    ensures r.Some? <==> |centers| == 3
    ensures r.Some? ==>
      // the diagonals p1-r and p2-p3 share their midpoint
      centers[0].x + r.value.x == centers[1].x + centers[2].x &&
      centers[0].y + r.value.y == centers[1].y + centers[2].y
  {
    if |centers| != 3 then None
    else
      var p1, p2, p3 := centers[0], centers[1], centers[2];
      Some(Point(p2.x + p3.x - p1.x, p2.y + p3.y - p1.y))
  }

  /** The centre list after the inferred corner is inserted at position 2. */
  function CornerSet(centers: seq<Point>): (r: Option<seq<Point>>)
    ensures r.Some? <==> |centers| == 3
    ensures r.Some? ==>
      |r.value| == 4 && r.value[0] == centers[0] &&
      r.value[1] == centers[1] && r.value[3] == centers[2]
  {
    match LastCorner(centers)
    case None => None
    case Some(p4) => Some(centers[..2] + [p4] + centers[2..])
  }

  /** Taken in order p1, p2, p4, p3 the four corners form a parallelogram:
      each side is the translate of its opposite side. */
  lemma CornerSetIsParallelogram(centers: seq<Point>)
    requires |centers| == 3
    ensures CornerSet(centers).Some?
    ensures var q := CornerSet(centers).value;
      q[1].x - q[0].x == q[2].x - q[3].x && q[1].y - q[0].y == q[2].y - q[3].y &&
      q[3].x - q[0].x == q[2].x - q[1].x && q[3].y - q[0].y == q[2].y - q[1].y
  {
    var q := CornerSet(centers).value;
    assert q[2] == LastCorner(centers).value;
  }

  /** Sum of the x (resp. y) coordinates of a pixel list. */
  function SumX(ps: seq<Point>): (r: int)
  {
    if ps == [] then 0 else SumX(ps[..|ps| - 1]) + ps[|ps| - 1].x
  }

  function SumY(ps: seq<Point>): (r: int)
  {
    if ps == [] then 0 else SumY(ps[..|ps| - 1]) + ps[|ps| - 1].y
  }

  predicate NonNegative(ps: seq<Point>)
  {
    forall i :: 0 <= i < |ps| ==> ps[i].x >= 0 && ps[i].y >= 0
  }

  /** Centre of a contour: the per-axis mean of its pixels, truncated to an
      unsigned integer (floor, since pixel coordinates are non-negative). */
  function PixelListCenter(ps: seq<Point>): (r: Point)
    requires |ps| > 0 && NonNegative(ps)
    ensures |ps| * r.x <= SumX(ps) < |ps| * (r.x + 1)
    ensures |ps| * r.y <= SumY(ps) < |ps| * (r.y + 1)
  {
    Point(SumX(ps) / |ps|, SumY(ps) / |ps|)
  }

  /** Every pixel lies in the box [lo, hi] in both axes. */
  predicate InBox(ps: seq<Point>, lo: Point, hi: Point)
  {
    forall i :: 0 <= i < |ps| ==>
      lo.x <= ps[i].x <= hi.x && lo.y <= ps[i].y <= hi.y
  }

  lemma MulSucc(n: nat, a: int)
    ensures (n + 1) * a == n * a + a
  {
  }

  lemma {:induction false} SumsInBox(ps: seq<Point>, lo: Point, hi: Point)
    requires InBox(ps, lo, hi)
    ensures |ps| * lo.x <= SumX(ps) <= |ps| * hi.x
    ensures |ps| * lo.y <= SumY(ps) <= |ps| * hi.y
  {
    if ps != [] {
      var n := |ps| - 1;
      var init := ps[..n];
      assert InBox(init, lo, hi);
      SumsInBox(init, lo, hi);
      assert SumX(ps) == SumX(init) + ps[n].x && SumY(ps) == SumY(init) + ps[n].y;
      MulSucc(n, lo.x);
      MulSucc(n, hi.x);
      MulSucc(n, lo.y);
      MulSucc(n, hi.y);
    }
  }

  lemma MulMonotone(n: nat, a: int, b: int)
    requires a <= b
    ensures n * a <= n * b
  {
    assert n * b - n * a == n * (b - a);
  }

  /** A floored quotient q of s by n lies between lo and hi when s does
      between n * lo and n * hi. */
  lemma QuotientBetween(n: nat, s: int, q: int, lo: int, hi: int)
    requires n > 0 && n * q <= s < n * (q + 1)
    requires n * lo <= s <= n * hi
    ensures lo <= q <= hi
  {
    if q < lo {
      MulMonotone(n, q + 1, lo);
    }
    if q > hi {
      MulMonotone(n, hi + 1, q);
    }
  }

  /** The centre of a contour lies inside the contour's bounding box. */
  lemma CenterInBox(ps: seq<Point>, lo: Point, hi: Point)
    requires |ps| > 0 && NonNegative(ps) && InBox(ps, lo, hi)
    ensures var c := PixelListCenter(ps);
      lo.x <= c.x <= hi.x && lo.y <= c.y <= hi.y
  {
    var c := PixelListCenter(ps);
    SumsInBox(ps, lo, hi);
    QuotientBetween(|ps|, SumX(ps), c.x, lo.x, hi.x);
    QuotientBetween(|ps|, SumY(ps), c.y, lo.y, hi.y);
  }

  /** Each element is smaller than every later one. */
  predicate StrictlyIncreasing(s: seq<int>)
  {
    forall a, b :: 0 <= a < b < |s| ==> s[a] < s[b]
  }
}
