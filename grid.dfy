/** The grid line extractor: a stripe of the corrected sheet is reduced to
    one dark/light flag per column, the flags are cleaned up in place, and the
    columns where the flag changes are the grid line positions. */
module Grid {
  import opened Geometry

  /** A grey-level image as rows of samples, every row `width` long. */
  datatype Image = Image(rows: seq<seq<int>>, width: nat)

  predicate WellFormed(img: Image)
  {
    forall r :: 0 <= r < |img.rows| ==> |img.rows[r]| == img.width
  }

  function Height(img: Image): (h: nat)
  {
    |img.rows|
  }

  function Transpose(img: Image): (t: Image)
    requires WellFormed(img)
    ensures WellFormed(t) && Height(t) == img.width && t.width == Height(img)
    ensures forall r, c :: 0 <= r < img.width && 0 <= c < Height(img) ==> t.rows[r][c] == img.rows[c][r]
  {
    Image(seq(img.width, c requires 0 <= c < img.width =>
            seq(|img.rows|, r requires 0 <= r < |img.rows| => img.rows[r][c])),
          |img.rows|)
  }

  /** A stripe taller than wide is transposed, so that the scan always runs
      along the longer side. */
  function Oriented(img: Image): (o: Image)
    requires WellFormed(img)
    ensures WellFormed(o) && Height(o) <= o.width
    ensures {Height(o), o.width} == {Height(img), img.width}
    ensures forall r, c :: 0 <= r < Height(o) && 0 <= c < o.width ==>
      o.rows[r][c] == if Height(img) > img.width then img.rows[c][r] else img.rows[r][c]
  {
    if Height(img) > img.width then Transpose(img) else img
  }

  /** Samples brighter than this count as ink (the sheet is inverted). */
  const InkThreshold: int := 128

  /** Number of the first m rows whose sample in column c is ink. */
  function InkCount(img: Image, c: nat, m: nat): (n: nat)
    requires WellFormed(img) && c < img.width && m <= Height(img)
    ensures n <= m
  {
    if m == 0 then 0
    else InkCount(img, c, m - 1) + (if img.rows[m - 1][c] > InkThreshold then 1 else 0)
  }

  /** The dark flag of each column: more than half of its samples are ink. */
  function Signal(img: Image): (s: seq<bool>)
    requires WellFormed(img)
    ensures |s| == img.width
    ensures forall c :: 0 <= c < img.width ==> (s[c] <==> 2 * InkCount(img, c, Height(img)) > Height(img))
  {
    seq(img.width, c requires 0 <= c < img.width => InkCount(img, c, Height(img)) > Height(img) / 2)
  }

  /** Index of the first light column, |s| when every column is dark. */
  function FirstLight(s: seq<bool>): (t: nat)
    ensures t <= |s|
    ensures forall k :: 0 <= k < t ==> s[k]
    ensures t < |s| ==> !s[t]
  {
    if s == [] || !s[0] then 0 else 1 + FirstLight(s[1..])
  }

  /** The flags with the leading run of dark columns cleared; None when the
      run reaches the end, where the source reads past the last column. */
  function ClearLeading(s: seq<bool>): (r: Option<seq<bool>>)
    ensures r.None? <==> FirstLight(s) == |s|
    ensures r.Some? ==> |r.value| == |s| && !r.value[0]
    ensures r.Some? ==> forall k :: 0 <= k < |s| ==> r.value[k] == (k >= FirstLight(s) && s[k])
  {
    var t := FirstLight(s);
    if t == |s| then None
    else Some(seq(|s|, k requires 0 <= k < |s| => if k < t then false else s[k]))
  }

  /** Column i differs from both neighbours, which agree with each other. */
  predicate Isolated(s: seq<bool>, i: nat)
    requires 1 <= i && i + 1 < |s|
  {
    s[i] != s[i + 1] && s[i] != s[i - 1] && s[i - 1] == s[i + 1]
  }

  /** One step of the smoothing pass at column i. */
  function SmoothStep(s: seq<bool>, i: nat): (r: seq<bool>)
    requires 1 <= i && i + 1 < |s|
  {
    if Isolated(s, i) then s[i := s[i - 1]] else s
  }

  /** The smoothing pass over columns 1 .. m - 1, left to right, each step
      seeing the columns already rewritten by the earlier steps. */
  function SmoothUpTo(s: seq<bool>, m: nat): (r: seq<bool>)
    requires 1 <= m < |s|
    ensures |r| == |s| && r[0] == s[0] && r[|s| - 1] == s[|s| - 1]
  {
    if m == 1 then s else SmoothStep(SmoothUpTo(s, m - 1), m - 1)
  }

  /** The whole smoothing pass, over columns 1 .. |s| - 2. */
  function Smooth(s: seq<bool>): (r: seq<bool>)
    ensures |r| == |s|
  {
    if |s| < 3 then s else SmoothUpTo(s, |s| - 1)
  }

  /** After the pass over columns 1 .. m - 1 none of those columns is an
      isolated toggle, although each step may rewrite the column just
      behind the next one. */
  lemma {:induction false} SmoothUpToNoIsolated(s: seq<bool>, m: nat)
    requires 1 <= m < |s|
    ensures forall i :: 1 <= i < m ==> !Isolated(SmoothUpTo(s, m), i)
  {
    if m > 1 {
      SmoothUpToNoIsolated(s, m - 1);
      var prev := SmoothUpTo(s, m - 1);
      var next := SmoothUpTo(s, m);
      assert next == SmoothStep(prev, m - 1);
      var p := m - 1;
      forall i | 1 <= i < m
        ensures !Isolated(next, i)
      {
        if Isolated(prev, p) {
          assert next == prev[p := prev[p - 1]];
          if i == p {
            assert next[i] == next[i - 1];
          } else if i == p - 1 {
            assert next[i + 1] == next[i];
          } else {
            assert next[i - 1] == prev[i - 1] && next[i] == prev[i] && next[i + 1] == prev[i + 1];
            assert !Isolated(prev, i);
          }
        } else {
          assert next == prev;
          assert i < p ==> !Isolated(prev, i);
        }
      }
    }
  }

  /** The pass over columns 1 .. m - 1 has not touched column m or any
      column after it. */
  lemma {:induction false} SmoothUpToFrame(s: seq<bool>, m: nat)
    requires 1 <= m < |s|
    ensures forall k :: m <= k < |s| ==> SmoothUpTo(s, m)[k] == s[k]
  {
    if m > 1 {
      SmoothUpToFrame(s, m - 1);
      assert SmoothUpTo(s, m) == SmoothStep(SmoothUpTo(s, m - 1), m - 1);
    }
  }

  /** The pass over columns 1 .. m - 1 changes only columns that are
      isolated toggles of its input, and a changed column takes the flag of
      its right neighbour: a column equal to either neighbour is kept. */
  lemma {:induction false} SmoothUpToChangesOnlyToggles(s: seq<bool>, m: nat)
    requires 1 <= m < |s|
    ensures forall k :: 0 <= k < |s| && SmoothUpTo(s, m)[k] != s[k] ==>
      1 <= k < m && Isolated(s, k) && SmoothUpTo(s, m)[k] == s[k + 1]
  {
    if m > 1 {
      var p := m - 1;
      SmoothUpToChangesOnlyToggles(s, p);
      SmoothUpToFrame(s, p);
      var prev := SmoothUpTo(s, p);
      var next := SmoothUpTo(s, m);
      assert next == SmoothStep(prev, p);
      if Isolated(prev, p) {
        assert next == prev[p := prev[p - 1]];
        assert prev[p] == s[p] && prev[p + 1] == s[p + 1];
        assert prev[p - 1] == s[p - 1];
      }
    }
  }

  /** The smoothed flags keep their length and both end columns, and no
      column strictly inside is an isolated toggle. Only isolated toggles of
      the input change, each to its right neighbour's flag, so a run of two
      or more equal columns survives, and flags without an isolated toggle
      are left as they are. */
  lemma SmoothProperties(s: seq<bool>)
    ensures |Smooth(s)| == |s|
    ensures |s| > 0 ==> Smooth(s)[0] == s[0] && Smooth(s)[|s| - 1] == s[|s| - 1]
    ensures forall i :: 1 <= i && i + 1 < |s| ==> !Isolated(Smooth(s), i)
    ensures forall k :: 0 <= k < |s| && Smooth(s)[k] != s[k] ==>
      1 <= k && k + 1 < |s| && Isolated(s, k) && Smooth(s)[k] == s[k + 1]
    ensures (forall i :: 1 <= i && i + 1 < |s| ==> !Isolated(s, i)) ==> Smooth(s) == s
  {
    if |s| >= 3 {
      SmoothUpToNoIsolated(s, |s| - 1);
      SmoothUpToChangesOnlyToggles(s, |s| - 1);
    }
  }

  /** A single dark column between light ones disappears. */
  lemma SmoothRemovesSpike()
    ensures Smooth([false, false, true, false, false]) == [false, false, false, false, false]
  {
    var s := [false, false, true, false, false];
    assert SmoothUpTo(s, 2) == s;
    assert SmoothUpTo(s, 3) == [false, false, false, false, false];
  }

  /** The pass works in place: column 2 is judged against the already
      cleared column 1, so the later toggle survives. */
  lemma SmoothIsInPlace()
    ensures Smooth([false, true, false, true, true]) == [false, false, false, true, true]
  {
    var s := [false, true, false, true, true];
    assert SmoothUpTo(s, 2) == [false, false, false, true, true];
    assert SmoothUpTo(s, 3) == [false, false, false, true, true];
  }

  /** The columns where the flag differs from the column before it, in
      increasing order. */
  function Transitions(s: seq<bool>): (r: seq<nat>)
    decreases |s|
  {
    if |s| <= 1 then []
    else Transitions(s[..|s| - 1]) + (if s[|s| - 1] != s[|s| - 2] then [|s| - 1] else [])
  }

  /** The transition list is strictly increasing, lies in [1, |s|), and
      holds exactly the columns whose flag differs from the previous one. */
  lemma {:induction false} TransitionsCharacterisation(s: seq<bool>)
    ensures StrictlyIncreasing(Transitions(s))
    ensures forall k :: 0 <= k < |Transitions(s)| ==> 1 <= Transitions(s)[k] < |s|
    ensures forall i :: 1 <= i < |s| ==> (i in Transitions(s) <==> s[i] != s[i - 1])
  {
    if |s| > 1 {
      var init := s[..|s| - 1];
      TransitionsCharacterisation(init);
      assert forall i :: 0 <= i < |init| ==> init[i] == s[i];
    }
  }

  datatype Failure =
    | ThumbnailEmpty  // the preview resize to a third of each side has a zero side
    | AllDark         // every column is dark: the leading clear runs off the end

  datatype Outcome<T, E> = Ok(value: T) | Err(error: E)

  /** What the stripe scan yields, as a function of the stripe. */
  function ScanStripe(stripe: Image): (r: Outcome<seq<nat>, Failure>)
    requires WellFormed(stripe)
  {
    var img := Oriented(stripe);
    if img.width / 3 == 0 || Height(img) / 3 == 0 then Err(ThumbnailEmpty)
    else
      match ClearLeading(Signal(img))
      case None => Err(AllDark)
      case Some(cleared) => Ok(Transitions(Smooth(cleared)))
  }

  /** The stripe scan yields strictly increasing columns of the oriented
      stripe, each one where the cleaned-up flag changes; the cleaned-up
      flags start light and hold no isolated toggle. It fails only on a
      stripe under three pixels on a side or a stripe dark throughout. */
  lemma ScanStripeProperties(stripe: Image)
    requires WellFormed(stripe)
    ensures var img := Oriented(stripe);
      var tooSmall := img.width < 3 || Height(img) < 3;
      (ScanStripe(stripe) == Err(ThumbnailEmpty) <==> tooSmall) &&
      (ScanStripe(stripe) == Err(AllDark) <==> !tooSmall && FirstLight(Signal(img)) == img.width)
    ensures ScanStripe(stripe).Ok? ==>
      var img := Oriented(stripe);
      var cleared := ClearLeading(Signal(img)).value;
      var smooth := Smooth(cleared);
      var r := ScanStripe(stripe).value;
      |smooth| == img.width && !smooth[0] &&
      (forall i :: 1 <= i && i + 1 < img.width ==> !Isolated(smooth, i)) &&
      (forall k :: 0 <= k < img.width && smooth[k] != cleared[k] ==>
        1 <= k && k + 1 < img.width && Isolated(cleared, k) && smooth[k] == cleared[k + 1]) &&
      StrictlyIncreasing(r) &&
      (forall k :: 0 <= k < |r| ==> 1 <= r[k] < img.width) &&
      (forall i :: 1 <= i < img.width ==> (i in r <==> smooth[i] != smooth[i - 1]))
  {
    var img := Oriented(stripe);
    var sig := Signal(img);
    var cleared := ClearLeading(sig);
    if cleared.Some? {
      SmoothProperties(cleared.value);
      TransitionsCharacterisation(Smooth(cleared.value));
    }
  }

  /** Clear the leading run of dark columns in place; false when the run
      covers every column. */
  method ClearLeadingRun(line: array<bool>) returns (ok: bool)
    modifies line
    ensures ClearLeading(old(line[..])) == if ok then Some(line[..]) else None
  {
    ghost var sig := line[..];
    var t := 0;
    while t < line.Length && line[t]
      invariant 0 <= t <= FirstLight(sig)
      invariant forall k :: 0 <= k < line.Length ==> line[k] == (k >= t && sig[k])
    {
      line[t] := false;
      t := t + 1;
    }
    assert t == FirstLight(sig);
    ok := t < line.Length;
    if ok {
      assert line[..] == ClearLeading(sig).value;
    }
  }

  /** Flip every isolated single-column toggle to its left neighbour, left
      to right, in place. */
  method SmoothInPlace(line: array<bool>)
    modifies line
    ensures line[..] == Smooth(old(line[..]))
  {
    ghost var s := line[..];
    if line.Length < 3 {
      return;
    }
    for i := 1 to line.Length - 1
      invariant line[..] == SmoothUpTo(s, i)
    {
      if line[i] != line[i + 1] && line[i] != line[i - 1] && line[i - 1] == line[i + 1] {
        line[i] := line[i - 1];
      }
    }
  }

  /** Walk the flags once, tracking the current state, and record every
      column whose flag differs from it. */
  method TransitionScan(line: array<bool>) returns (result: seq<nat>)
    requires line.Length > 0
    ensures result == Transitions(line[..])
  {
    var state := line[0];
    result := [];
    for i := 1 to line.Length
      invariant state == line[i - 1]
      invariant result == Transitions(line[..i])
    {
      assert line[..i + 1][..i] == line[..i];
      if state != line[i] {
        state := line[i];
        result := result + [i];
      }
    }
    assert line[..line.Length] == line[..];
  }

  /** The stripe scan as the source runs it, on a mutable array of flags. */
  method SeparateGrids(stripe: Image) returns (r: Outcome<seq<nat>, Failure>)
    requires WellFormed(stripe)
    ensures r == ScanStripe(stripe)
  {
    var img := Oriented(stripe);
    var h, w := Height(img), img.width;
    if w / 3 == 0 || h / 3 == 0 {
      return Err(ThumbnailEmpty);
    }
    var sig := Signal(img);
    var line := new bool[w](k requires 0 <= k < w => sig[k]);
    assert line[..] == sig;
    var ok := ClearLeadingRun(line);
    if !ok {
      return Err(AllDark);
    }
    SmoothInPlace(line);
    var result := TransitionScan(line);
    return Ok(result);
  }

  /** Python slice-bound normalisation for a sequence of length len:
      negative bounds count from the end, and bounds are clamped to
      [0, len]. */
  function SliceBound(i: int, len: nat): (b: nat)
    ensures b <= len
    ensures 0 <= i <= len ==> b == i
  {
    if i < 0 then (if i + len < 0 then 0 else i + len)
    else if i > len then len
    else i
  }

  /** image[r0:r1, c0:c1] with Python slice semantics on both axes. */
  function Crop(img: Image, r0: int, r1: int, c0: int, c1: int): (c: Image)
    requires WellFormed(img)
    ensures WellFormed(c)
    ensures var top, bottom := SliceBound(r0, Height(img)), SliceBound(r1, Height(img));
      var left, right := SliceBound(c0, img.width), SliceBound(c1, img.width);
      Height(c) == (if top <= bottom then bottom - top else 0) &&
      c.width == (if left <= right then right - left else 0) &&
      forall r, k :: 0 <= r < Height(c) && 0 <= k < c.width ==> c.rows[r][k] == img.rows[top + r][left + k]
  {
    var top, bottom := SliceBound(r0, Height(img)), SliceBound(r1, Height(img));
    var left, right := SliceBound(c0, img.width), SliceBound(c1, img.width);
    var n := if top <= bottom then bottom - top else 0;
    var m := if left <= right then right - left else 0;
    Image(seq(n, k requires 0 <= k < n => img.rows[top + k][left..left + m]), m)
  }

  /** n * num / den truncated, for the fractions of a box side used to place
      the stripes. */
  function Fraction(n: nat, num: nat, den: nat): (f: nat)
    requires den > 0
  {
    n * num / den
  }

  /** The stripe for the vertical lines: right of the second marker's box up
      to the inferred corner's column, over the middle 30%..70% of that box's
      height. */
  function VerticalStripe(img: Image, box: Rect, cornerX: int): (s: Image)
    requires WellFormed(img) && box.h >= 0
    ensures WellFormed(s)
  {
    Crop(img, box.y + Fraction(box.h, 3, 10), box.y + Fraction(box.h, 7, 10), box.x + box.w, cornerX)
  }

  /** The stripe for the horizontal lines: below the first marker's box down
      to the top of the second, over 15%..35% of the two boxes' combined
      width from the first box's left edge. */
  function HorizontalStripe(img: Image, first: Rect, second: Rect): (s: Image)
    requires WellFormed(img) && first.w >= 0 && second.w >= 0
    ensures WellFormed(s)
  {
    var span := first.w + second.w;
    Crop(img, first.y + first.h, second.y, first.x + Fraction(span, 15, 100), first.x + Fraction(span, 35, 100))
  }

  /** Local stripe positions moved to image coordinates. */
  function Shift(l: seq<nat>, offset: int): (r: seq<int>)
    ensures |r| == |l| && forall k :: 0 <= k < |l| ==> r[k] == l[k] + offset
  {
    seq(|l|, k requires 0 <= k < |l| => l[k] + offset)
  }

  lemma ShiftKeepsOrder(l: seq<nat>, offset: int)
    requires StrictlyIncreasing(l)
    ensures StrictlyIncreasing(Shift(l, offset))
  {
  }

  /** Which of the two stripes could not be scanned, and why. */
  datatype Stripe = VerticalLines | HorizontalLines
  datatype GridError = GridError(stripe: Stripe, cause: Failure)

  /** The result of the two stripe scans moved to image coordinates; the
      vertical stripe is scanned first, so its failure is the one reported
      when both fail. */
  function Assemble(v: Outcome<seq<nat>, Failure>, h: Outcome<seq<nat>, Failure>, hoff: int, voff: int)
    : (r: Outcome<(seq<int>, seq<int>), GridError>)
  {
    if v.Err? then Err(GridError(VerticalLines, v.error))
    else if h.Err? then Err(GridError(HorizontalLines, h.error))
    else Ok((Shift(h.value, hoff), Shift(v.value, voff)))
  }

  /** Assembling keeps the order of increasing scans and moves each position
      by exactly its stripe's offset; it fails exactly when a scan fails, and
      names the vertical stripe whenever that one failed. */
  lemma AssembleProperties(v: Outcome<seq<nat>, Failure>, h: Outcome<seq<nat>, Failure>, hoff: int, voff: int)
    requires v.Ok? ==> StrictlyIncreasing(v.value)
    requires h.Ok? ==> StrictlyIncreasing(h.value)
    ensures var r := Assemble(v, h, hoff, voff);
      (r.Ok? <==> v.Ok? && h.Ok?) &&
      (v.Err? ==> r == Err(GridError(VerticalLines, v.error))) &&
      (v.Ok? && h.Err? ==> r == Err(GridError(HorizontalLines, h.error))) &&
      (r.Ok? ==>
        StrictlyIncreasing(r.value.0) && StrictlyIncreasing(r.value.1) &&
        |r.value.0| == |h.value| && |r.value.1| == |v.value| &&
        (forall k :: 0 <= k < |h.value| ==> r.value.0[k] == h.value[k] + hoff) &&
        (forall k :: 0 <= k < |v.value| ==> r.value.1[k] == v.value[k] + voff))
  {
    if v.Ok? && h.Ok? {
      ShiftKeepsOrder(h.value, hoff);
      ShiftKeepsOrder(v.value, voff);
    }
  }

  lemma ScanStripeIncreasing(stripe: Image)
    requires WellFormed(stripe)
    ensures ScanStripe(stripe).Ok? ==> StrictlyIncreasing(ScanStripe(stripe).value)
  {
    ScanStripeProperties(stripe);
  }

  /** The horizontal (row) and the vertical (column) grid line positions of
      the corrected sheet, from the boxes of the first two markers and the
      inferred corner's column: both stripes are cut, scanned, and their
      transitions moved to image coordinates. */
  function GridlinePositions(img: Image, boxes: seq<Rect>, centers: seq<Point>): (r: Outcome<(seq<int>, seq<int>), GridError>)
    requires WellFormed(img) && |boxes| >= 2 && |centers| >= 3
    requires boxes[0].w >= 0 && boxes[1].w >= 0 && boxes[1].h >= 0
  {
    Assemble(ScanStripe(VerticalStripe(img, boxes[1], centers[2].x)),
             ScanStripe(HorizontalStripe(img, boxes[0], boxes[1])),
             boxes[0].y + boxes[0].h, boxes[1].x + boxes[1].w)
  }

  /** Both position lists are strictly increasing, and position k of each
      is transition k of its stripe's scan moved by that stripe's offset. */
  lemma GridlinePositionsProperties(img: Image, boxes: seq<Rect>, centers: seq<Point>)
    requires WellFormed(img) && |boxes| >= 2 && |centers| >= 3
    requires boxes[0].w >= 0 && boxes[1].w >= 0 && boxes[1].h >= 0
    ensures var r := GridlinePositions(img, boxes, centers);
      var v := ScanStripe(VerticalStripe(img, boxes[1], centers[2].x));
      var h := ScanStripe(HorizontalStripe(img, boxes[0], boxes[1]));
      (r.Ok? <==> v.Ok? && h.Ok?) &&
      (r.Ok? ==>
        StrictlyIncreasing(r.value.0) && StrictlyIncreasing(r.value.1) &&
        |r.value.0| == |h.value| && |r.value.1| == |v.value| &&
        (forall k :: 0 <= k < |h.value| ==> r.value.0[k] == h.value[k] + boxes[0].y + boxes[0].h) &&
        (forall k :: 0 <= k < |v.value| ==> r.value.1[k] == v.value[k] + boxes[1].x + boxes[1].w))
  {
    var v := ScanStripe(VerticalStripe(img, boxes[1], centers[2].x));
    var h := ScanStripe(HorizontalStripe(img, boxes[0], boxes[1]));
    ScanStripeIncreasing(VerticalStripe(img, boxes[1], centers[2].x));
    ScanStripeIncreasing(HorizontalStripe(img, boxes[0], boxes[1]));
    AssembleProperties(v, h, boxes[0].y + boxes[0].h, boxes[1].x + boxes[1].w);
  }
}
