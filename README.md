# shapeme in Dafny

shapeme approximates an image with a set of semi-transparent triangles and
circles. It evolves the set by simulated annealing. Each generation copies
the current solution, mutates the copy, draws it, scores it against the
target image, and keeps it when it is better. A worse copy can also be kept,
with a probability given by a slowly falling temperature.

This project models the engine of `shapeme.c`:

- `random.dfy` (module `Random`) covers the random ranges: `random() % n` and `randbetween`.
- `shapes.dfy` (module `Shapes`) has the shape record as a value and the normalisation of triangles and circles.
- `generate.dfy` (module `Generate`) covers random shapes, small shapes and the six single-shape mutations.
- `shapeset.dfy` (module `ShapeSets`) holds `struct triangles` as a class `ShapeSet`. It owns an array of slots and `inuse`, the number of slots that are drawn. It also models `mkRandomtriangles` and `mutatetriangles`.
- `raster.dfy` (module `Raster`) covers which frame-buffer bytes `setPixelWithAlpha` and `drawHline` write, and the order in which `drawtriangles` paints.
- `engine.dfy` (module `Annealing`) covers the option sanity check, the set-up, and one generation of the loop in `main`. A class `Engine` holds the global state, `bestdiff` and the three candidate sets.

How the C is represented:

- Every `random()` result is a parameter in `[0, 2^31 - 1]`. Each decision gets its own draw.
- `(float)rand()/RAND_MAX` is a real `coin` in `[0, 1]`.
- The float blend of a colour channel into a byte is a function parameter `mix`.
- The score of a candidate is a function parameter `score`. The score covers drawing the candidate, `computeDiff` and the percentage.
- Painting one triangle or one circle is a function parameter per kind.
- A procedure that updates one `struct triangle` through a pointer takes the old value and returns the new one.
- Code that updates arrays or the global state in place is a method that updates them in place.

Details of the code that the model keeps:

- Alpha is drawn from `[MINALPHA, MAXALPHA] = [1, 100]` (shapeme.c:41-42, 366).
- `drawHline` checks the row but not each pixel's x (shapeme.c:504-516).
- The sanity check only raises `max_shapes`, to `max_shapes_incremental` (shapeme.c:798-799).
- The budget test reads `triangles->inuse`, which holds the candidate of the previous generation (shapeme.c:855).
- `absbest` is replaced whenever an accepted candidate beats `bestdiff` (shapeme.c:891-901). So `absbestdiff` can rise (`Annealing.AbsBestCanRise`).

## Model

| member | source | states |
|---|---|---|
| Random.CRem | shapeme.c:276 | C's truncating `%`: the remainder is smaller in size than the divisor, has the sign of the dividend, and differs from the dividend by a multiple of the divisor |
| Random.CRemQuotient | shapeme.c:276 | the truncated remainder differs from the dividend by a multiple of the divisor |
| Random.Below | shapeme.c:644-645 | `random() % n` for `n > 0` is an index in `[0, n)` |
| Random.RandBetween | shapeme.c:275-277 | randbetween returns at least `min`, and at most `max` whenever `min <= max` |
| Random.RandBetweenReaches | shapeme.c:275-277 | every value of `[min, max]` is returned for some draw |
| Shapes.SelectShapeType | shapeme.c:348-359 | a circle only when circles are enabled; a triangle whenever circles are off, even with triangles off too; a circle when only circles are on |
| Shapes.SelectShapeTypeBoth | shapeme.c:351-352 | with both kinds enabled, the low bit of the draw picks either kind |
| Shapes.Clamp | shapeme.c:300-301 | the two clamping tests put a coordinate in `[0, n)`, keep one already there, and map values below to 0 and above to `n - 1` |
| Shapes.ClampMonotonic | shapeme.c:301-313 | clamping keeps two coordinates in order, so the y order made by the swap loop survives it |
| Shapes.ClampCloser | shapeme.c:301-313 | clamping moves a coordinate toward any on-canvas point, never away |
| Shapes.ClampPoint | shapeme.c:324-327 | a clamped point is on the canvas, and a point already on it is unchanged |
| Shapes.DiscInsideIffFit | shapeme.c:332-333 | for an on-canvas centre, the loop's exit test holds exactly when the radius is at most the distance to the nearest edge |
| Shapes.SortByY | shapeme.c:287-300 | the three vertices come back as a permutation of the input, in non-decreasing y; an already sorted triple is unchanged |
| Shapes.NormalizedTriangle | shapeme.c:284-314 | the normalised triangle is ordered by y and every vertex is on the canvas |
| Shapes.NormalizedTriangleVertices | shapeme.c:284-314 | normalisation only reorders the clamped vertices, as a multiset |
| Shapes.NormalizedTriangleIdempotent | shapeme.c:284-314 | a normal triangle is left unchanged, so normalising twice equals normalising once |
| Shapes.NormalizeTriangle | shapeme.c:284-314 | the do-while swap loop (variant: inversions plus the pending pass) and the twelve clamps compute `NormalizedTriangle`; colour and alpha are untouched |
| Shapes.NormalizedCircle | shapeme.c:321-337 | clamped centre; radius never grows; a negative radius is kept; otherwise the disc fits, and no larger radius up to the old one fits |
| Shapes.NormalizedCircleIdempotent | shapeme.c:321-337 | a normal circle is left unchanged, so normalising twice equals normalising once |
| Shapes.NormalizeCircle | shapeme.c:321-337 | the decrementing loop (variant: radius minus the fit) computes `NormalizedCircle`: `min(r, x, w-1-x, y, h-1-y)` for `r >= 0`, `r` itself when negative |
| Shapes.NormalizedGeometry | shapeme.c:340-345 | normalisation keeps the kind and produces a normal geometry |
| Shapes.Normalize | shapeme.c:340-345 | normalize dispatches on the kind, leaves colour and alpha alone and yields `NormalizedGeometry` |
| Generate.SetRandomColor | shapeme.c:362-367 | channels are draws mod 256, alpha lies in `[1, 100]`, geometry is untouched |
| Generate.SetRandomVertexes | shapeme.c:370-383 | kind and colour kept; every vertex or the centre is on the canvas; radius in `[0, width)` |
| Generate.MoveVertexes | shapeme.c:386-399 | kind and colour kept; every coordinate and the radius move by at most delta |
| Generate.RandomShape | shapeme.c:402-407 | the new shape is well formed (alpha in range, normal geometry) and of the selected kind |
| Generate.RandomSmallShape | shapeme.c:411-430 | well formed, of the selected kind; a circle is centred on the anchor and is the normalisation of a radius in `[1, delta]`; triangle vertices stay within delta of the anchor after clamping |
| Generate.PlaceAround | shapeme.c:417-428 | before normalisation, vertices lie within delta of the anchor; a circle sits on the anchor with radius in `[1, delta]` |
| Generate.NormalizedTriangleNear | shapeme.c:411-430 | normalising keeps vertices that were within delta of an on-canvas anchor within delta |
| Generate.ClampPointCloser | shapeme.c:301-313 | clamping a vertex keeps it within delta of an on-canvas anchor |
| Generate.MutateShape | shapeme.c:433-467 | the kind never changes and well-formedness is kept. Choices 0-2 keep colour and alpha and end normal. Choices 1-2 are the normalisation of a move of at most 20 or 5. Choice 3 replaces only r, g and b. Choice 4 keeps each channel within 5 of the old one. Choice 5 changes only alpha, within `[1, 100]` |
| ShapeSets.RemovedAt | shapeme.c:635-636 | deleting index i keeps the length minus one and the other elements in order |
| ShapeSets.RemovedAtMultiset | shapeme.c:635-636 | deletion loses exactly the deleted element |
| ShapeSets.Swapped | shapeme.c:646-652 | two positions exchanged, all others kept, a permutation |
| ShapeSets.ShapeSet.constructor | shapeme.c:470-483 | every slot holds a well-formed random shape of the selected kind; `inuse` is 1 |
| ShapeSets.ShapeSet.CopyFrom | shapeme.c:862-864 | memcpy of the source's slots, then its `inuse` |
| ShapeSets.ShapeSet.Grow | shapeme.c:613-626 | slot `inuse` gets the shape `GrownShape` describes: for kind 0 (the draw mod 5) a random shape of the kind its first draw selects; for kinds 1-4 a small shape of the kind its third draw selects, placed around the anchor with spread 5, 10, 25 or 2 (a circle centred on the anchor with radius at most the spread, or a triangle with every vertex within the spread); `inuse` grows by one; other slots are unchanged; validity is kept |
| ShapeSets.ShapeSet.Remove | shapeme.c:633-637 | the drawn prefix becomes the old prefix with slot `random() % inuse` deleted, order kept; the slots past it are unchanged |
| ShapeSets.ShapeSet.Swap | shapeme.c:643-652 | the two drawn slots are exchanged; equal indices change nothing |
| ShapeSets.ShapeSet.MutateBatch | shapeme.c:655-659 | `inuse`, the slots past it and every slot's kind are kept, validity too; with a rate of at most 0 nothing changes |
| ShapeSets.ShapeSet.Mutate | shapeme.c:605-660 | growth fires only with room and budget, adds the shape `GrownShape` describes and returns; otherwise removal fires only with more than one shape, deletes slot `random() % inuse` and returns; otherwise `inuse` and the slots past it are unchanged, and with a rate of at most 0 the slots are the old ones with the optional swap applied; `1 <= inuse <= count` is kept throughout |
| Raster.PixelNumber | shapeme.c:487 | pixel (x, y) of the canvas is byte group `y * width + x`, inside the buffer, and row and column are recovered from it |
| Raster.SpanExtend | shapeme.c:511-515 | blending the three bytes of the next pixel extends the blended run by exactly that pixel |
| Raster.SetPixelWithAlpha | shapeme.c:486-493 | an off-canvas pixel changes nothing; an on-canvas one has exactly its three bytes blended, red, green, blue |
| Raster.DrawHline | shapeme.c:496-517 | an off-canvas row changes nothing; otherwise exactly the pixels from the smaller to the larger x are blended, whatever the order of the ends |
| Raster.HlineInsideRow | shapeme.c:496-517 | for a line inside the canvas, a byte changes exactly when its pixel is in row y between the two ends |
| Raster.HlineSpillsIntoNextRow | shapeme.c:510-516 | with no x check, a line past the right edge blends the first pixel of the next row |
| Raster.Painted | shapeme.c:573-582 | drawing a sequence of shapes keeps the buffer size |
| Raster.PaintedAppend | shapeme.c:577-581 | painter's order: drawing `a + b` is drawing `b` over the drawing of `a` |
| Raster.DrawShapes | shapeme.c:573-582 | the buffer becomes the shapes in use drawn in slot order, each by the painter of its kind |
| Annealing.SanityChecked | shapeme.c:797-801 | the total is raised to the initial budget when below it; the rate is cut to 1000 when above |
| Annealing.DefaultsPassSanityCheck | shapeme.c:758-759 | the default configuration (64 slots, budget 1, rate 200) passes the sanity check unchanged |
| Annealing.SanityCheckedIdempotent | shapeme.c:797-801 | a checked configuration passes the check unchanged |
| Annealing.Cooled | shapeme.c:846-849 | the temperature never goes below 0, never rises, falls by at most one step, and only on generations divisible by 10 |
| Annealing.CooledRunClosedForm | shapeme.c:845-849 | after any run of generations the temperature is `max(0, t - step * (multiples of 10 passed))` |
| Annealing.RaisedBudget | shapeme.c:853-859 | the budget grows by at most one, only on generations divisible by 1000 and when the candidate uses it all; it never passes the slot count |
| Annealing.BudgetRunBounds | shapeme.c:853-859 | over any run the budget never shrinks, stays within the slot count, and grows at most once per thousand generations |
| Annealing.Accept | shapeme.c:879-882 | an improvement is always accepted; an accepted worse candidate needs a positive temperature, a coin below it, and a score below the absolute best plus twice the temperature |
| Annealing.ColdAcceptsOnlyImprovements | shapeme.c:879-882 | at temperature 0 a candidate is accepted exactly when it improves on bestdiff |
| Annealing.UphillAcceptedOnCoin | shapeme.c:880-882 | a worse candidate within the band is accepted exactly when the coin is below the temperature |
| Annealing.Record | shapeme.c:883-911 | a rejected candidate changes nothing; an accepted one sets bestdiff. absbestdiff changes only when the candidate beats bestdiff, and then takes its score. `absbestdiff <= bestdiff` is kept |
| Annealing.AbsBestCanRise | shapeme.c:891-901 | after an uphill acceptance, a candidate between the two scores raises absbestdiff |
| Annealing.ColdKeepsAbsoluteBest | shapeme.c:879-901 | at temperature 0 the current solution stays the absolute best and its score never rises |
| Annealing.Engine.constructor | shapeme.c:820-833 | three random sets of `maxShapes` slots, budget at its initial value, temperature 0.10 and both scores 100; with restart the current solution uses the initial budget, else one shape; absbest is a copy of it |
| Annealing.Engine.Step | shapeme.c:845-911 | one generation: `Cooled`, `RaisedBudget` on last candidate's inuse; the candidate is the old best with the grown shape, the removal, or (with neither) the same `inuse` and slots past it and, at a rate of at most 0, the optional swap; `Accept` on the cooled temperature, copies into best and absbest, scores per `Record` |
| Annealing.Engine.Advance | shapeme.c:845-859 | generation plus one, temperature per `Cooled`, budget per `RaisedBudget` |
| Annealing.Engine.Propose | shapeme.c:861-865 | the candidate is a copy of best with growth (the shape `GrownShape` describes) or removal applied when they fire; with neither it keeps best's `inuse` and every slot past it, and at a rate of at most 0 its slots are best's with the optional swap applied |
| Annealing.Engine.Settle | shapeme.c:879-911 | acceptance per `Accept`; best, absbest and the scores updated as `Record` says |

## Left out

- PNG loading and saving (libpng), the SDL window and events, `saveSvg`, `saveBinary`, `loadBinary`, command-line parsing and `showHelp`: file I/O, display and argument handling. `Annealing.Engine.constructor` models the path where no saved state exists, so `best` uses one shape unless `--restart` is given.
- `drawTriangle` and `drawCircle`: float slope stepping with truncation, and `sqrt`/`round`. They enter the model as painter parameters, and only the order and which shapes are drawn is modelled.
- `computeDiff` and the `percdiff` division: float and `sqrt` arithmetic. The score is a parameter.
- The blend arithmetic `alpha * c + (1 - alpha) * p` with truncation to `unsigned char`: a parameter `mix`.
- The stream of `random()` and `rand()`: every draw is a parameter; the order of the draws within a call is not modelled.
- `short` coordinates: coordinates and radii are unbounded integers, and the 16-bit wrap of a `short` is not modelled. Before clamping, a vertex can lie up to 25 pixels off the canvas (`randomsmalltriangle` with spread 25, shapeme.c:417-422, 621). A circle's radius has no lower bound: `normalizeCircle` keeps a negative radius (shapeme.c:332-336) and `moveVertexes` can lower it again (shapeme.c:397), so in the C repeated moves can wrap it.
- The temperature is a real, not a `float`. `0.10` and the step `0.00001` are exact rather than rounded.
- `Annealing.Engine.constructor`: requires at least one slot, `initialShapes <= maxShapes` (which the sanity check ensures), a canvas of at least one pixel, and an initial budget of at least 1 when `--restart` is given. The source checks none of these. With `--restart` and an initial budget below 1, `inuse` would be below 1 and `random() % inuse` would divide by zero. Without `--restart` any initial budget is allowed.
- `Raster.DrawHline`: requires the written bytes to lie inside the buffer, which the source leaves to its callers.
- `ShapeSets.ShapeSet.MutateBatch`: does not state which slots a given draw sequence mutates, only what every pass preserves and that a rate of at most 0 changes nothing.
- `ShapeSets.ShapeSet.Mutate`: in the swap-and-batch branch with a positive rate, states only the invariants, not the resulting slots.
- `Annealing.Engine.Step`: in the swap-and-batch branch with a positive rate, states only the kept `inuse`, the unchanged slots past it and validity, not which drawn slots the batch mutates.
- `Annealing.Engine.Propose`: in the swap-and-batch branch with a positive rate, states only the kept `inuse`, the unchanged slots past it and validity, not which drawn slots the batch mutates.
- `Generate.SetRandomVertexes`: states the ranges of the new coordinates, not their values as draws mod width or height.
