/** The coarse step of the orientation corrector: which quarter turn to
    apply, decided from where the right-angle corner lies relative to the
    image centre, and where a quarter turn moves a point. */
module Orientation {
  import opened Geometry

  /** A pixel relative to the centre of a w x h image, y pointing up. */
  function Centred(p: Point, w: nat, h: nat): (c: Point)
  {
    Point(p.x - w / 2, h / 2 - p.y)
  }

  predicate TopLeft(c: Point)
  {
    c.x < 0 && c.y > 0
  }

  /** The quarter turn chosen for a right-angle corner at `corner` in a
      w x h image, as the source chooses it. */
  function CoarseDegree(corner: Point, w: nat, h: nat): (deg: int)
  {
    var c := Centred(corner, w, h);
    if c.x > 0 && c.y > 0 then 270
    else if c.x > 0 && c.y < 0 then 180
    else if c.x < 0 && c.y < 0 then 90
    else 0
  }

  /** The decision table: one quarter turn per quadrant other than the
      top-left one, and no turn for a corner in the top-left quadrant or on
      either axis through the centre. */
  lemma CoarseDegreeTable(corner: Point, w: nat, h: nat)
    ensures var c := Centred(corner, w, h); var d := CoarseDegree(corner, w, h);
      d in {0, 90, 180, 270} &&
      (d == 270 <==> c.x > 0 && c.y > 0) &&
      (d == 180 <==> c.x > 0 && c.y < 0) &&
      (d == 90 <==> c.x < 0 && c.y < 0) &&
      (d == 0 <==> TopLeft(c) || c.x == 0 || c.y == 0)
  {
  }

  predicate QuarterTurn(deg: int)
  {
    deg == 0 || deg == 90 || deg == 180 || deg == 270
  }

  /** Cosine and sine of a quarter turn, exactly. */
  function Cos(deg: int): (r: int)
    requires QuarterTurn(deg)
  {
    if deg == 0 then 1 else if deg == 180 then -1 else 0
  }

  function Sin(deg: int): (r: int)
    requires QuarterTurn(deg)
  {
    if deg == 90 then 1 else if deg == 270 then -1 else 0
  }

  /** The coordinate rotation of the orientation corrector at a quarter turn:
      to centre coordinates with y up, rotate by deg, and back. */
  function RotateCoordinate(p: Point, w: nat, h: nat, deg: int): (r: Point)
    requires QuarterTurn(deg)
  {
    var x, y := p.x - w / 2, h / 2 - p.y;
    Point(x * Cos(deg) - y * Sin(deg) + w / 2, h / 2 - (y * Cos(deg) + x * Sin(deg)))
  }

  /** In centre coordinates the rotation is a counter-clockwise quarter turn
      per 90 degrees: it keeps the distance to the centre and maps the four
      quadrants onto each other. */
  lemma RotateCoordinateIsCounterClockwise(p: Point, w: nat, h: nat, deg: int)
    requires QuarterTurn(deg)
    ensures var c := Centred(p, w, h); var r := Centred(RotateCoordinate(p, w, h, deg), w, h);
      (deg == 0 ==> r == c) &&
      (deg == 90 ==> r == Point(-c.y, c.x)) &&
      (deg == 180 ==> r == Point(-c.x, -c.y)) &&
      (deg == 270 ==> r == Point(c.y, -c.x)) &&
      Sqr(r.x) + Sqr(r.y) == Sqr(c.x) + Sqr(c.y)
  {
    var c := Centred(p, w, h);
    assert Sqr(-c.x) == Sqr(c.x) && Sqr(-c.y) == Sqr(c.y);
  }

  /** After the coarse turn of the source, a right-angle corner that started
      in the top-right or the bottom-left quadrant lies in the bottom-right
      quadrant, not in the top-left one that the turn of 0 treats as upright. */
  lemma CoarseTurnMissesUpright(corner: Point, w: nat, h: nat)
    requires var c := Centred(corner, w, h); c.x != 0 && c.y != 0
    ensures var c := Centred(corner, w, h);
      var r := Centred(RotateCoordinate(corner, w, h, CoarseDegree(corner, w, h)), w, h);
      (TopLeft(r) <==> (c.x < 0) == (c.y > 0)) &&
      ((c.x > 0) == (c.y > 0) ==> r.x > 0 && r.y < 0)
  {
    RotateCoordinateIsCounterClockwise(corner, w, h, CoarseDegree(corner, w, h));
  }

  /** A concrete case: in a 100 x 100 image a corner one pixel right of and
      one pixel above the centre gets the turn 270 and, with exact
      trigonometry, ends up one pixel right of and one pixel below it. */
  lemma CoarseTurnCounterexample()
    ensures CoarseDegree(Point(51, 49), 100, 100) == 270
    ensures Centred(RotateCoordinate(Point(51, 49), 100, 100, 270), 100, 100) == Point(1, -1)
    ensures !TopLeft(Centred(RotateCoordinate(Point(51, 49), 100, 100, 270), 100, 100))
  {
  }

  /** The coarse turn with 90 and 270 exchanged, matching the
      counter-clockwise rotation that is applied. */
  function UprightDegree(corner: Point, w: nat, h: nat): (deg: int)
    ensures QuarterTurn(deg)
  {
    var c := Centred(corner, w, h);
    if c.x > 0 && c.y > 0 then 90
    else if c.x > 0 && c.y < 0 then 180
    else if c.x < 0 && c.y < 0 then 270
    else 0
  }

  /** The corrected turn brings every corner off the axes into the top-left
      quadrant, and leaves a top-left corner where it is. */
  lemma UprightDegreeIsUpright(corner: Point, w: nat, h: nat)
    requires var c := Centred(corner, w, h); c.x != 0 && c.y != 0
    ensures TopLeft(Centred(RotateCoordinate(corner, w, h, UprightDegree(corner, w, h)), w, h))
    ensures TopLeft(Centred(corner, w, h)) ==> UprightDegree(corner, w, h) == 0
  {
    RotateCoordinateIsCounterClockwise(corner, w, h, UprightDegree(corner, w, h));
  }
}
