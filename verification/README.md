# Ray caster model

A Dafny model of the decision logic of a small single-file ray caster
(`main.cpp`). For every pixel of an 800 × 600 viewport it:

- casts a ray from the camera (`rayFromPixelPosition`);
- tests the ray against every ball of the scene (`closestPoint` and
  `intersection`);
- keeps the colour of the nearest ball hit at a strictly positive distance,
  or the background colour;
- writes the pixels row by row, each row closed by a line break.

The model works over exact `real`s instead of IEEE doubles. `sqrt` is passed
in as a function `sqrt: real -> real`, and properties that need it assume
`IsSquareRoot(sqrt)`. The value `tan(FOV · π / 180)` is the `yFactor` field
of the frame's `Setup`.

Modules, one per file:

- `Vectors` (`vectors.dfy`): `Vec3` and its operators `+`, `-`, `*`, `dot`,
  `length_squared` and `cross`.
- `Geometry` (`geometry.dfy`): rays, balls and colours, plus `closestPoint`,
  `intersects` and `intersection`. It holds both the as-written
  `intersection` and a corrected one (see Findings).
- `Scene` (`scene.dfy`): the nearest-hit scan of the pixel loop.
- `Raster` (`raster.dfy`): the viewport constants, the per-pixel view
  offsets, and the row-major order of the pixel loop.
- `Frame` (`frame.dfy`): `rayFromPixelPosition`, the colour of one pixel,
  and the whole image body that the pixel loop writes.
- `Optional` (`optional.dfy`): the `Option` type.

Some behaviour is modelled by exhibiting it rather than hiding it:

- `intersection` rejects only a negative projection (main.cpp:91), so a
  projection of exactly 0 passes. The hit it yields lies at a distance of
  at most 0, and `main` discards it.
- No radius is checked for being positive. `intersection` accepts any
  radius, and so does the model.
- `main` keeps a hit only when its distance is strictly positive.
- A pixel whose ray has zero length gets NaN components in the source. Every
  comparison then fails and the pixel keeps the background colour. The model
  represents that ray as `None`, and the pixel is the background.
- The source starts the scan with `minimal_distance = infinity`. Here "no
  best yet" is `None`.

The pixel loop takes the ray–ball test as a parameter, `BallTest`:

- `AsWritten` is the program's own `intersection`. With it, `Frame.Render`
  produces the program's image.
- `Corrected` is the fixed test described under Findings.

The facts about the scan (`Nearest`, `NearestIsFirstNearest`,
`StrictlyNearestWins`, `EarliestWinsTies`) are stated over an arbitrary list
of hits, so they hold for both tests. `Scene.ProgramMissesCrossingBall` and
`Scene.CorrectedShadesCrossingBall` show the two tests colouring the same
pixel differently.

## Model

| member | source | states |
|---|---|---|
| Vectors.Add | main.cpp:14 | Component-wise sum of `operator+`. `Sub` undoes it, and `DotAddLeft` distributes `dot` over it. |
| Vectors.Sub | main.cpp:16 | Adding `b` back to `a - b` gives `a`, and `a - b` is the zero vector exactly when `a == b`. |
| Vectors.Scale | main.cpp:18 | The product `v * d` of `operator*`. `LengthSquaredScale` and `DotScaleLeft` say how squared length and `dot` change under it. |
| Vectors.Dot | main.cpp:22 | `dot`. `DotSymmetric`, `DotAddLeft` and `DotScaleLeft` state its symmetry and linearity, and `LengthSquared` its sign on a vector with itself. |
| Vectors.LengthSquared | main.cpp:24 | `length_squared` is never negative. |
| Vectors.Cross | main.cpp:28-34 | `cross(a, b)` is orthogonal to both `a` and `b`. |
| Vectors.DotSymmetric | main.cpp:22 | `dot` is symmetric. |
| Vectors.DotScaleLeft | main.cpp:18-22 | Scaling the first operand of `dot` by `d` scales the product by `d`. |
| Vectors.LengthSquaredScale | main.cpp:18-24 | Scaling a vector by `d` multiplies its squared length by `d²`. |
| Vectors.PythagorasSub | main.cpp:16-24 | When `u ⟂ w`, the squared length of `u − w·s` is `|u|² + s²·|w|²`. |
| Geometry.ClosestPoint | main.cpp:75-78 | The returned point is `origin + direction·t`. For a unit direction, the vector from it to `p` is orthogonal to the direction. |
| Geometry.DistanceAlongRay | main.cpp:75-78 | For a unit direction, the squared distance from `p` to the point at parameter `s` is the squared distance at the projection plus `(s − t)²`. |
| Geometry.ClosestPointIsNearest | main.cpp:75-78 | For a unit direction, no point of the line is closer to `p` than the projected point. |
| Geometry.Intersects | main.cpp:80-86 | `intersects`: the centre projects strictly in front of the origin and the projected point is strictly inside the ball. `IntersectsIffLineEntersBall` gives its geometric meaning. |
| Geometry.IntersectsIffLineEntersBall | main.cpp:80-86 | For a unit direction, `intersects` holds exactly when the centre projects strictly in front of the origin and some point of the ray's line is strictly inside the ball. |
| Geometry.Intersection | main.cpp:88-107 | As written: a miss exactly when the projection is negative or `r² − q·q` is negative (`q` the squared radial distance). A hit's point is `origin + direction·distance`. With a true `sqrt`, the distance is at most the projection and lies `sqrt(r² − q·q)` before it. |
| Geometry.ZeroProjectionHitIsNotForward | main.cpp:91-93 | A projection of exactly 0 is not rejected, and the hit it yields has a distance of at most 0. |
| Geometry.AsWrittenMissesCrossingRay | main.cpp:95-101 | The as-written test misses a ray along +y whose point (0, 10, 0) is strictly inside a ball of radius 2 centred at (1.5, 10, 0). |
| Geometry.IntersectionCorrected | main.cpp:88-107 | With `q` squared once: a miss exactly when the projection is negative or `q > r²`. A hit's point is on the ray. |
| Geometry.CorrectedHitDistance | main.cpp:103-106 | With a true `sqrt`, a corrected hit's distance is at most the projection and lies `sqrt(r² − q)` before it. |
| Geometry.PointOnSphere | main.cpp:103-106 | For a unit direction, the point whose parameter is `sqrt(r² − q)` from the projection is at distance `r` from the centre. |
| Geometry.CorrectedHitIsOnSphere | main.cpp:103-106 | For a unit direction and a true `sqrt`, the corrected hit point lies on the ball's surface. |
| Geometry.CorrectedFindsCrossingRay | main.cpp:88-101 | For a unit direction, the corrected test hits whenever the projection is not negative and some point of the line is inside the ball. |
| Geometry.CorrectedHitFromOutsideIsForward | main.cpp:88-106 | For a unit direction and an origin outside the ball, a corrected hit's distance is strictly positive, so `main` accepts it. |
| Geometry.TestBall | main.cpp:166 | The ray–ball test the pixel loop applies: `intersection` itself for `AsWritten`, the corrected test for `Corrected`. |
| Geometry.CorrectedHitsBallAhead | main.cpp:88-106 | A ray with a unit direction that starts outside a ball, has the centre ahead and passes inside the ball gets a corrected hit at a strictly positive distance. |
| Scene.ScanFrom | main.cpp:164-171 | The scan from position `i` keeps its invariant. With no usable hit it returns nothing; otherwise it returns the first nearest usable hit. |
| Scene.Nearest | main.cpp:162-171 | The scan finds nothing exactly when no hit is usable (success with distance > 0). Otherwise its choice is usable, no farther than any usable hit, and strictly nearer than every usable hit before it. |
| Scene.NearestIsFirstNearest | main.cpp:162-171 | The scan picks `k` if and only if `k` is the first nearest usable hit. |
| Scene.StrictlyNearestWins | main.cpp:167 | A usable hit strictly nearer than all other usable hits is chosen, wherever it sits in the list. |
| Scene.EarliestWinsTies | main.cpp:167 | When usable hits `i < j` share the smallest distance, the scan stops at or before `i`, never at `j`. |
| Scene.Hits | main.cpp:165-166 | One hit per ball, in list order, as the inner loop computes them. `HitsAt` says which. |
| Scene.HitsAt | main.cpp:165-166 | Hit `i` of the scanned list is the chosen test of ball `i`: `intersection` itself for `AsWritten`. |
| Scene.ShadeRay | main.cpp:162-171 | For either test: with no usable hit (including no balls), the pixel is the background. Otherwise it is the colour of a ball whose usable distance is the first smallest. |
| Scene.ResolvePixel | main.cpp:162-171 | For either test, the loop that keeps a colour and a minimal distance computes the colour `ShadeRay` describes. |
| Scene.SingleBallShade | main.cpp:162-171 | A scene of one ball shows the ball's colour if its hit is usable and the background if not. |
| Scene.SingleBallAhead | main.cpp:162-171 | With the corrected test and a true `sqrt`, a one-ball scene that the ray enters from outside shows the ball's colour. |
| Scene.ProgramMissesCrossingBall | main.cpp:95-101 | With the program's `intersection`, the pixel of the crossing ray stays the background colour, although the ray passes through the ball. |
| Scene.CorrectedShadesCrossingBall | main.cpp:95-101 | With the corrected test and a true `sqrt`, the same pixel takes the ball's colour. |
| Raster.XOffset | main.cpp:119-121 | The horizontal offset of a column in the viewport lies in [−0.5, 0.5). |
| Raster.YOffset | main.cpp:122-125 | The vertical offset of a row in the viewport lies in [−0.5, 0.5). |
| Raster.XOffsetIncreasing | main.cpp:119-121 | Columns further right have strictly larger offsets, and only those. |
| Raster.YOffsetDecreasing | main.cpp:122-125 | Rows further down have strictly smaller offsets (the row flip `HEIGHT − y − 1`), and only those. |
| Raster.TopRowHighest | main.cpp:122-125 | Row 0 has the largest vertical offset, `0.5 − 1/HEIGHT`. |
| Raster.OffsetsInvert | main.cpp:119-125 | The column and the row can be recovered from their offsets. |
| Raster.CentrePixelOffsets | main.cpp:119-125 | Column `WIDTH/2` and row `HEIGHT/2 − 1` have zero offsets. |
| Raster.FrameFrom | main.cpp:158-176 | The steps of the outer loop from row `y` on: each row's `WIDTH` pixels, then its line break. There are `(HEIGHT − y)·(WIDTH + 1)` of them. |
| Raster.Order | main.cpp:158-176 | The steps of the whole pixel loop, from the top row. `OrderLayout` and `OrderIsRowMajor` give its closed form. |
| Raster.FrameFromLayout | main.cpp:158-176 | In the rows from `y0` on, column `x` of row `y` is at `(y − y0)·(WIDTH + 1) + x`. |
| Raster.OrderLayout | main.cpp:158-176 | The pixel loop takes `HEIGHT·(WIDTH + 1)` steps. Step `y·(WIDTH + 1) + x` visits pixel `(x, y)` for `x < WIDTH`, and ends row `y` for `x = WIDTH`. |
| Raster.StepAtCell | main.cpp:158-176 | The closed form `(i mod (WIDTH + 1), i div (WIDTH + 1))` maps index `y·(WIDTH + 1) + x` back to column `x` of row `y`. |
| Raster.OrderIsRowMajor | main.cpp:158-176 | The recursive row-by-row order and the closed form agree at every step. |
| Frame.DefaultCameraIsUpright | main.cpp:54-59 | The default camera's direction and `up` are orthogonal unit vectors, so the camera meets the requirements of `ViewDirectionOnImagePlane` and `ViewDirectionHeight`. Its `right` is +x. |
| Frame.ViewDirection | main.cpp:110-127 | The unnormalised ray `direction + right·xd + up·yd` of `rayFromPixelPosition`. The next three rows give its components. |
| Frame.ViewDirectionOnImagePlane | main.cpp:109-127 | For a unit viewing direction orthogonal to `up`, the unnormalised ray has component 1 along the viewing direction. |
| Frame.ViewDirectionHeight | main.cpp:109-127 | For a unit `up` orthogonal to the viewing direction, the ray's component along `up` is the row's offset times `yfactor`. |
| Frame.ViewDirectionSideways | main.cpp:109-127 | The ray's component along `right = cross(direction, up)` is the column's offset times `xfactor`, in units of `right`'s squared length. |
| Frame.CentrePixelLooksAhead | main.cpp:119-127 | Pixel (400, 299) looks straight along the camera's direction. |
| Frame.Normalize | main.cpp:129 | With a true `sqrt`, normalising fails exactly for a zero vector. Otherwise the result is a positive multiple of the input with length 1. |
| Frame.UnitAfterDivision | main.cpp:20-26 | Dividing a vector by its non-zero length leaves a vector of squared length 1. |
| Frame.RayFromPixel | main.cpp:109-130 | The ray starts at the camera. With a true `sqrt`, its direction is a positive multiple of the pixel's view direction with unit length, so the lemmas that require a unit direction apply to every pixel's ray. There is no ray exactly when the view direction is zero. |
| Frame.PixelColor | main.cpp:160-171 | The colour written for one pixel: the background when its ray has no direction, otherwise `ShadeRay` along the ray. `RenderPixel` computes it. |
| Frame.Image | main.cpp:158-176 | The image body, one item per step of the pixel loop, `HEIGHT·(WIDTH + 1)` items. `ImageFollowsOrder` and `ImageLayout` say what each item is. |
| Frame.ImageFollowsOrder | main.cpp:158-176 | Item `i` of the image body is what the pixel loop writes at its step `i`. |
| Frame.ImageLayout | main.cpp:158-176 | Item `y·(WIDTH + 1) + x` of the image body is the colour of pixel `(x, y)` for `x < WIDTH`, and the line break for `x = WIDTH`. |
| Frame.RenderPixel | main.cpp:160-171 | For the setup's test, the loop body computes the pixel's colour: the background without a ray, the scan's colour otherwise. With `AsWritten` this is the program's pixel. |
| Frame.Render | main.cpp:158-176 | The nested loops produce exactly the image body for the setup's test. With `AsWritten` this is the program's image. |

## Left out

- File and console output, argument handling, and the P3 header (main.cpp:133-141, 153-156). These are I/O. The header's maximum channel value is 256.
- The `operator<<` overloads (main.cpp:36-38, 45-47, 65-67). These are stream formatting.
- IEEE-754 rounding, NaN and infinity. The model is exact. The infinity start value of the scan is `None`, and a zero-length ray is `None`.
- `sqrt`, `tan` and `M_PI` cannot be computed over the reals. `sqrt` is a parameter, and the tangent is the `yFactor` field of `Setup`. `Camera.fov` is carried but unused for the same reason.
- The hard-coded camera and scene literals of `main` (main.cpp:143-151). They are configuration data. The model takes any camera and any list of balls; `DefaultCamera` records the camera's defaults.
- The viewport is fixed at the source's 800 × 600. Proofs write the row length `WIDTH + 1 = 801` as a literal.

## Findings

| source | as written | input that shows it | evidently intended | confidence | as-written member | corrected member |
|---|---|---|---|---|---|---|
| main.cpp:95-97 | `offset_squared = r² − q·q`, where `q = length_squared(closest_point − center)` is already a squared distance | Ray from (0, 0, 0) along (0, 1, 0); ball of radius 2 at (1.5, 10, 0). Then `q = 2.25`, `q·q = 5.0625 > 4`, so the test misses, although (0, 10, 0) is inside the ball. | `offset_squared = r² − q`, so for a projection that is not negative a hit exactly when the line passes within `r` of the centre, and the hit point lies on the sphere | high (not executed) | Geometry.AsWrittenMissesCrossingRay | Geometry.IntersectionCorrected |
