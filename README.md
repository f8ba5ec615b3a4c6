# Answer-sheet geometry, verified

This project models the integer and combinatorial geometry of the answer-sheet
normaliser in `ocr/src/utility.py` and proves what it promises. The normaliser
does four things:

- It finds the three square corner markers printed on a scanned sheet among
  the traced contours. It keeps contours nested six deep that are longer than
  the mean and nearly square. It then picks the three whose centres come
  closest to a right triangle. Finally it rotates their order so that the
  right-angle marker comes first.
- It completes the fourth corner of the sheet as a parallelogram.
- It chooses a coarse quarter turn from the quadrant of the right-angle
  marker.
- It extracts the grid line positions. Each of two stripes of the corrected
  sheet becomes one dark/light flag per column. The flags are cleaned up in
  place, and the columns where they change are the grid lines.

The model has one module per stage:

| module | stage |
|---|---|
| `Geometry` | points, boxes, squared distance, fourth corner, integer centre of a pixel list |
| `Hierarchy` | the contour hierarchy arena and the nesting depth of every contour |
| `Candidates` | the depth, length and shape filters |
| `Triplet` | the exhaustive search for the best right triangle |
| `Rearrange` | the choice of the right-angle marker and the cyclic rotation |
| `Orientation` | the coarse quarter turn and the quarter-turn coordinate rotation |
| `Grid` | the stripe scan and the grid line positions |

The loops of the source are methods proved against specification functions:
- the depth table;
- the triple-nested triplet search;
- the right-angle scan;
- the clear, smoothing and transition passes over a mutable `array<bool>`.

Lemmas then prove what the source promises about those functions.

## Model

| member | source | states |
|---|---|---|
| Geometry.SqrDistProperties | ocr/src/utility.py:8-9 | the squared distance is non-negative, symmetric, and zero exactly for equal points |
| Geometry.LawOfCosines | ocr/src/utility.py:8-9 | \|ab\|² + \|ac\|² − \|bc\|² is twice the dot product of ab and ac, so a Pythagorean residual is zero exactly at a right angle |
| Geometry.LastCorner | ocr/src/utility.py:25-35 | a corner exists exactly for three centres (the assert); p1 + corner equals p2 + p3 in each coordinate, so the two diagonals share their midpoint |
| Geometry.CornerSet | ocr/src/utility.py:230-231 | the completed corner is inserted at index 2 and the three centres keep their positions around it |
| Geometry.CornerSetIsParallelogram | ocr/src/utility.py:230-231 | the four corners p1, p2, corner, p3 form a parallelogram: opposite sides are equal vectors |
| Geometry.PixelListCenter | ocr/src/utility.py:45-49 | the centre is the floored mean: n·c ≤ Σ < n·(c + 1) in each coordinate |
| Geometry.SumsInBox | ocr/src/utility.py:45-49 | the coordinate sums of pixels inside a box lie between n times its corners |
| Geometry.CenterInBox | ocr/src/utility.py:45-49 | the centre of a pixel list lies inside any box that holds all its pixels |
| Hierarchy.Chain | ocr/src/utility.py:62-66 | the sibling chain starts at the first child, follows the next links, ends at a contour with no next sibling, and never climbs in rank |
| Hierarchy.Children | ocr/src/utility.py:62-66 | every child is a valid index of strictly lower rank, so the depth recursion terminates |
| Hierarchy.MaxDepthIsMaximum | ocr/src/utility.py:67-68 | the maximum over the children bounds every child's depth and is attained by one of them |
| Hierarchy.DepthCharacterisation | ocr/src/utility.py:59-70 | depth ≥ 1; a contour without a first child has depth 1; otherwise every child is shallower and some child's depth plus one is the depth |
| Hierarchy.ChildShallower | ocr/src/utility.py:59-70 | a child is strictly shallower than its parent |
| Hierarchy.PreOrderIsForest | ocr/src/utility.py:59-66 | an arena whose child and sibling links point only forward is acyclic, so the depth walk is defined on it |
| Hierarchy.NestDepth | ocr/src/utility.py:57-77 | in a chain of n singly nested contours, contour i has depth n − i |
| Hierarchy.ContourDepths | ocr/src/utility.py:72-77 | the table has a key for exactly the indices of the hierarchy, holds the recursive depth for each (it is the depth table of the arena), and every depth is ≥ 1 |
| Candidates.Keep | ocr/src/utility.py:89-90 | the kept elements are exactly the elements of the input that satisfy the test |
| Candidates.KeepAppend | ocr/src/utility.py:89-90 | keeping distributes over concatenation, so the relative order of kept elements is preserved |
| Candidates.KeepIndices | ocr/src/utility.py:170-172 | the positions of the elements that pass the test are ascending and in range |
| Candidates.KeepAtIndices | ocr/src/utility.py:170-172 | the kept elements are exactly the elements at those ascending positions, so a filter keeps a subsequence of its input |
| Candidates.MarkerIndices | ocr/src/utility.py:170 | the indices kept are exactly those whose depth is 6, in ascending order |
| Candidates.AtMarkerDepth | ocr/src/utility.py:170-172 | the contours kept are exactly those at depth 6 |
| Candidates.FilterWithShape | ocr/src/utility.py:80-91 | a contour is kept exactly when its box's longer side is at most 1.05 times its shorter side |
| Candidates.MarkerCandidates | ocr/src/utility.py:165-177 | a contour is a candidate exactly when it is at depth 6, longer than the mean length of all traced contours, and nearly square |
| Candidates.MarkerCandidatesKeepOrder | ocr/src/utility.py:170-177 | the candidates appear in the order of the traced contours: they are the contours at some ascending list of indices |
| Candidates.ShapeToleranceExamples | ocr/src/utility.py:88-89 | a 21 x 20 box passes and a 22 x 20 box fails, either way round |
| Triplet.Sort3 | ocr/src/utility.py:108-111 | the three side lengths come out ascending, with the same least and greatest values and the same sum |
| Triplet.SortedResidualIsLeast | ocr/src/utility.py:108-113 | over sorted non-negative sides the residual is the least of the three residuals obtained by taking each side as the longest |
| Triplet.ResidualIsLeastVertexResidual | ocr/src/utility.py:108-113 | the triangle residual is the least of the residuals at the three vertices, and is zero exactly when one of the angles is right |
| Triplet.BestIsUnique | ocr/src/utility.py:112-114 | at most one triple is best: least residual, first in lexicographic order on ties |
| Triplet.ScanStep | ocr/src/utility.py:112-115 | visiting one triple with the strict-improvement update keeps the search state valid |
| Triplet.ScanNextJ | ocr/src/utility.py:105-116 | moving from the last k of (i, j) to (i, j + 1, j + 2) skips no valid triple |
| Triplet.ScanNextI | ocr/src/utility.py:103-117 | moving from the last j of i to (i + 1, i + 2, i + 3) skips no valid triple |
| Triplet.ScanDone | ocr/src/utility.py:103-117 | after the last triple the search state names the best triple |
| Triplet.ScanK | ocr/src/utility.py:107-115 | the inner loop visits every k for (i, j) and keeps the search state valid |
| Triplet.ScanJ | ocr/src/utility.py:105-116 | the middle loop visits every (j, k) for i and keeps the search state valid |
| Triplet.BestTriplet | ocr/src/utility.py:100-117 | the search returns the triple i < j < k of least residual, the lexicographically first one on ties |
| Triplet.Centers | ocr/src/utility.py:98 | position k holds the centre of contour k |
| Triplet.FilterWithPositions | ocr/src/utility.py:94-119 | the result is the three contours of the best triple, in their original order |
| Triplet.MarkerContours | ocr/src/utility.py:165-177 | the candidates are selected with the depth table computed from the hierarchy, which is the table of the arena's own depths |
| Triplet.NarrowCandidates | ocr/src/utility.py:180-181 | more than three candidates are narrowed to the best triple; otherwise the candidates pass unchanged |
| Triplet.CornerContours | ocr/src/utility.py:165-181 | the result is the candidates under the hierarchy's depths, narrowed to the best triple when more than three remain |
| Rearrange.RightAngleIndex | ocr/src/utility.py:134-149 | the chosen position has the least angle residual over t1, t1 + 1, t1 + 2 (mod n), and is the first with it |
| Rearrange.RightAngleIndexUnique | ocr/src/utility.py:146-148 | at most one position is the right-angle position |
| Rearrange.VertexResidualIsDot | ocr/src/utility.py:139-141 | the residual at a vertex is symmetric in the other two corners and is twice the absolute dot product at that vertex |
| Rearrange.RightAngleAttainsResidual | ocr/src/utility.py:136-148 | for three markers the chosen vertex's residual equals the triangle residual of the triplet search |
| Rearrange.Rotate | ocr/src/utility.py:150-153 | the rotation has the length of its input |
| Rearrange.RotateIsSplice | ocr/src/utility.py:150-153 | rotating by a moves the suffix from a to the front |
| Rearrange.RotatePermutes | ocr/src/utility.py:150-153 | the rotation starts at element a and is a permutation of its input |
| Rearrange.RotateKeepsCyclicOrder | ocr/src/utility.py:150-153 | the element after any position of the rotation is the element after it in the input, cyclically |
| Rearrange.RearrangeContours | ocr/src/utility.py:121-159 | the angle-ordered contours are rotated to start at the right-angle position; no contours give no contours |
| Orientation.CoarseDegreeTable | ocr/src/utility.py:236-247 | the turn is 270 for a corner right of and above the centre, 180 right of and below it, 90 left of and below it, and 0 otherwise (also on either axis) |
| Orientation.RotateCoordinateIsCounterClockwise | ocr/src/utility.py:195-201 | at a quarter turn the coordinate rotation turns centred coordinates counter-clockwise by the angle and keeps the distance to the centre |
| Orientation.CoarseTurnMissesUpright | ocr/src/utility.py:241-251 | the applied turn brings a corner to the top-left quadrant exactly when it started top-left or bottom-right; from top-right or bottom-left it lands bottom-right |
| Orientation.CoarseTurnCounterexample | ocr/src/utility.py:236-251 | in a 100 x 100 image the corner (51, 49) gets 270 and ends one pixel right of and below the centre |
| Orientation.UprightDegree | ocr/src/utility.py:241-247 | the corrected choice is always a quarter turn |
| Orientation.UprightDegreeIsUpright | ocr/src/utility.py:241-251 | the corrected turn brings every corner off the axes into the top-left quadrant, and leaves a top-left corner unturned |
| Grid.Transpose | ocr/src/utility.py:305-306 | the transpose swaps height and width, and cell (r, c) of the result is cell (c, r) of the input |
| Grid.Oriented | ocr/src/utility.py:305-307 | cell (r, c) of the result is cell (c, r) of a taller-than-wide stripe and cell (r, c) of any other, so the scan runs along the longer side and the pair of dimensions is kept |
| Grid.Signal | ocr/src/utility.py:313 | a column is dark exactly when more than half of its samples exceed 128 (a count above h // 2) |
| Grid.FirstLight | ocr/src/utility.py:316-319 | every column before the index is dark, and the index is the first light column when one exists |
| Grid.ClearLeading | ocr/src/utility.py:316-319 | the clear fails exactly when every column is dark; otherwise column 0 becomes light, the leading dark run becomes light and the rest is unchanged |
| Grid.SmoothUpTo | ocr/src/utility.py:320-322 | the partial smoothing pass keeps the length and both end columns |
| Grid.SmoothUpToNoIsolated | ocr/src/utility.py:320-322 | after the pass over columns 1 .. m − 1 none of those columns is an isolated toggle |
| Grid.SmoothUpToFrame | ocr/src/utility.py:320-322 | the pass over columns 1 .. m − 1 has not touched column m or any later column |
| Grid.SmoothUpToChangesOnlyToggles | ocr/src/utility.py:320-322 | a column the partial pass changes was an isolated toggle of the input and now holds its right neighbour's flag |
| Grid.SmoothProperties | ocr/src/utility.py:320-322 | smoothing keeps the length and the end columns and leaves no isolated toggle strictly inside; it changes only isolated toggles of its input, each to its right neighbour's flag, and leaves flags without an isolated toggle unchanged |
| Grid.SmoothRemovesSpike | ocr/src/utility.py:320-322 | [F, F, T, F, F] is smoothed to all F |
| Grid.SmoothIsInPlace | ocr/src/utility.py:320-322 | [F, T, F, T, T] is smoothed to [F, F, F, T, T], because each step sees the column already rewritten before it |
| Grid.TransitionsCharacterisation | ocr/src/utility.py:325-330 | the transitions are strictly increasing, lie in [1, w), and are exactly the columns whose flag differs from the previous column |
| Grid.ScanStripeProperties | ocr/src/utility.py:298-332 | the scan fails exactly on a stripe under three pixels on a side or one dark throughout; otherwise its positions are strictly increasing in [1, w) along the longer side, they are exactly the changes of the cleaned flags, and those flags start light with no isolated toggle and differ from the signal after the leading clear only at its isolated toggles |
| Grid.ScanStripeIncreasing | ocr/src/utility.py:325-330 | a successful scan is strictly increasing |
| Grid.ClearLeadingRun | ocr/src/utility.py:316-319 | the in-place clear leaves the array equal to the cleared flags, or reports that every column is dark |
| Grid.SmoothInPlace | ocr/src/utility.py:320-322 | the in-place pass leaves the array equal to the smoothed flags |
| Grid.TransitionScan | ocr/src/utility.py:325-330 | the scan that tracks the current state returns exactly the transitions of the array |
| Grid.SeparateGrids | ocr/src/utility.py:298-332 | the imperative scan returns exactly the stripe scan's outcome, error cases included |
| Grid.SliceBound | ocr/src/utility.py:341 | a slice bound is normalised into [0, len], and a bound already in range is kept |
| Grid.Crop | ocr/src/utility.py:341 | a two-axis slice has the normalised dimensions, and cell (r, k) is the source cell at the normalised offset |
| Grid.VerticalStripe | ocr/src/utility.py:340-341 | the vertical-line stripe is a rectangular image |
| Grid.HorizontalStripe | ocr/src/utility.py:345-347 | the horizontal-line stripe is a rectangular image |
| Grid.Shift | ocr/src/utility.py:343 | every local position is moved by the same offset |
| Grid.ShiftKeepsOrder | ocr/src/utility.py:343 | shifting keeps a strictly increasing list strictly increasing |
| Grid.AssembleProperties | ocr/src/utility.py:340-351 | the positions fail exactly when a scan fails, naming the vertical stripe whenever it failed; otherwise both lists are increasing and position k is local transition k plus the stripe's offset |
| Grid.GridlinePositionsProperties | ocr/src/utility.py:334-351 | the horizontal and vertical lists are strictly increasing, and each is its stripe's transitions shifted by y1 + h1 and by x + w respectively |

## Left out

- `pdf2jpg` (file conversion through an image library) and `rotateImage` (pixel rotation) are I/O and library services.
- Edge detection and contour tracing are library services. So are bounding rectangles and the preview resize and window display in the stripe scan. The traced contours, the hierarchy arena and the boxes are inputs. `Candidates.Traced` states what the model assumes of them: at least one pixel, non-negative coordinates, and boxes at least one pixel on a side. A zero side would divide by zero in the shape ratio. The preview resize is kept only for its failure on a side under three pixels.
- The polar sort in `rearrange_contours` (angles by `arctan2`) is taken as given. `Rearrange.RearrangeContours` receives the contours already in angular order. The expression at line 128 subtracts a scalar from a tuple and does not compute the centred coordinates its neighbours expect.
- The fine rotation (`getAdjustDegree`, the rotation by a fractional angle and `rotateContour`) is floating-point trigonometry.
- Orientation.RotateCoordinate is modelled at quarter turns only, with exact cosines and sines. The floating `cos(π/2)` is about 6e-17, not 0, so truncation can put a point one pixel off the exact result. The same holds for `Orientation.CoarseTurnMissesUpright`, `Orientation.CoarseTurnCounterexample` and `Orientation.UprightDegreeIsUpright`, which are stated with exact trigonometry.
- Grid.VerticalStripe: uses the exact floor of 3h/10 and 7h/10. The source multiplies by the floating constants 0.3 and 0.7. For 0.7 the product can land just under an integer (h = 90 gives 62, not 63).
- Grid.HorizontalStripe: uses the exact floor of 15(w1 + w2)/100 and 35(w1 + w2)/100. The same floating-constant caveat applies to 0.35.
- Geometry.LastCorner: does not model unsigned 32-bit wrap-around of a negative coordinate. The centres are unsigned, but the fourth corner of a sheet lying inside the image is non-negative.
- Hierarchy.ContourDepths: requires a rank witness that the first-child and next-sibling links are acyclic; a traced hierarchy is always a forest. On a cycle along the next-sibling links the source's `while` at lines 64-66 loops forever and the children list grows without bound; on a cycle through the first-child links the recursion runs until Python's recursion limit raises an exception.
- `print` output and the commented-out drawing code are left out.
- `ocr/src/dev.py` is an exploratory driver (files, windows, a recogniser not shown) and is not part of this model.

## Findings

| source | as written | input that shows it | evidently intended | confidence | as-written member | corrected member |
|---|---|---|---|---|---|---|
| ocr/src/utility.py:241-251 | a corner right of and above the centre gets the turn 270, and one left of and below it gets 90. The turn is then applied by the counter-clockwise `rotateCoordinate` (and the equally counter-clockwise image rotation) | 100 x 100 image, right-angle corner at (51, 49): turn 270; the corner ends at centred (0, −1) in the source's floating arithmetic and at (1, −1) with exact trigonometry, not top-left | 90 for the top-right quadrant and 270 for the bottom-left one, so that every corner ends top-left as with the turn 0 | medium; not executed | Orientation.CoarseTurnMissesUpright, Orientation.CoarseTurnCounterexample | Orientation.UprightDegree, Orientation.UprightDegreeIsUpright |
