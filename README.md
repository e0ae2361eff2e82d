# Software rasterizer core, in Dafny

This project models the core of `rasterizer-part-3.py`, a small Python software
rasterizer that draws triangles with Blinn-Phong shading. The model covers these parts:

- the `Vector` type and its value operations (`+`, `-`, scalar `*`, `dot`, `normalize`);
- `barycentric`, including the `(-1, -1, -1)` sentinel it returns for a zero-area triangle;
- `Renderer.project`, with Python's `int()` modelled as truncation toward zero;
- the clamped bounding box of `render_triangle`;
- the nested loop of `render_triangle`, which updates a depth buffer `zbuffer[y][x]` and a
  pixel buffer `pixels[x, y]` in place;
- `shade_pixel`, with its final clamp to `[0, 1]` and the conversion of each channel to
  `int(c * 255)`.

Modules, one per file:

- `Numbers` (numbers.dfy): Python's `int()` on a float, and `min`/`max`.
- `Vectors` (vectors.dfy): `Vector`, plus `MathLib`, the `math.sqrt` and `**` the program
  calls, passed in as parameters.
- `Scan` (scan.dfy): `barycentric`, the inside test and attribute interpolation.
- `Shading` (shading.dfy): `Material`, `Light`, `shade_pixel` and the 8-bit conversion.
- `DepthBuffer` (depth.dfy): the per-pixel depth rule.
- `Raster` (raster.dfy): projection, the bounding box and the `Renderer` class. The class
  holds the pixel buffer as an `array2<Rgb>` indexed `[x, y]` and the depth buffer as an
  `array2<Depth>` indexed `[y, x]`, as in the program.

`RenderTriangle` is proved against a specification function. `FragmentAt(scene, tri, x, y)`
is what the loop body makes of pixel `(x, y)`. `DepthAfter` and `ColorAfter` give a cell's
new value from its old value. The lemmas next to these functions say what they mean:

- a fragment exists exactly where the weights are non-negative;
- no on-screen pixel is lost to the box clamp;
- depths stay between the vertex depths, and colours are valid bytes;
- degenerate triangles draw nothing;
- drawing twice is drawing once;
- over a sequence of fragments, a cell ends at the minimum depth.

Two behaviours of the code are easy to misread. The model follows the code in both:

- **Depth test.** The code skips a fragment only when `z > zbuffer[y][x]`
  (rasterizer-part-3.py:95), so a fragment at equal depth overwrites the stored one. A
  strictly-less-than test would keep the triangle drawn first; this code keeps the one
  drawn last. `DepthBuffer.Update` and `DepthBuffer.TieOverwrites` model the code.
- **Projection rounding.** The code uses `int()`, which truncates toward zero
  (rasterizer-part-3.py:74-75); it does not take the floor. The two differ for every point
  left of or above the visible square whose scaled coordinate is not an integer. In
  particular, just outside the edge, truncation gives column or row 0 where floor would give
  -1 (`Raster.ProjectNearLeftEdge`, `Numbers.TruncIsNotFloor`).

## Model

| member | source | states |
|---|---|---|
| Numbers.Trunc | rasterizer-part-3.py:74-75 | `int()` of a float rounds toward zero: for `r >= 0`, `0 <= i <= r < i + 1`; for `r < 0`, `i - 1 < r <= i <= 0` |
| Numbers.TruncIsNotFloor | rasterizer-part-3.py:74-75 | `int(-0.5)` is 0 while its floor is -1 |
| Numbers.TruncOdd | rasterizer-part-3.py:74-75 | truncation is symmetric: `int(-r) == -int(r)` |
| Numbers.TruncOfInteger | rasterizer-part-3.py:74-75 | an integral value is left unchanged |
| Numbers.TruncNearZero | rasterizer-part-3.py:74-75 | everything strictly between -1 and 1 truncates to 0 |
| Numbers.Min3Int | rasterizer-part-3.py:83-86 | `min` of three is at most each argument and equal to one of them |
| Numbers.Max3Int | rasterizer-part-3.py:83-86 | `max` of three is at least each argument and equal to one of them |
| Numbers.ConvexBetween | rasterizer-part-3.py:94 | a combination with non-negative weights summing to 1 lies between the minimum and maximum of the three values |
| Vectors.SubUndoesAdd | rasterizer-part-3.py:10-14 | `(a + b) - b == a` and `(a - b) + b == a` |
| Vectors.DotSymmetric | rasterizer-part-3.py:19-20 | `a.dot(b) == b.dot(a)` |
| Vectors.DotLinear | rasterizer-part-3.py:16-20 | `dot` is linear in scaling and in addition of its first argument |
| Vectors.DotZero | rasterizer-part-3.py:19-20 | a dot product with the zero vector is 0 |
| Vectors.Add | rasterizer-part-3.py:10-11 | plain definition with no contract: componentwise `+`; its properties are in `SubUndoesAdd` and `DotLinear` |
| Vectors.Sub | rasterizer-part-3.py:13-14 | plain definition with no contract: componentwise `-`; see `SubUndoesAdd` |
| Vectors.Scale | rasterizer-part-3.py:16-17 | plain definition with no contract: `__mul__` by a scalar; see `DotLinear` |
| Vectors.Dot | rasterizer-part-3.py:19-20 | plain definition with no contract; see `DotSymmetric`, `DotLinear`, `DotZero` |
| Vectors.SquaredLength | rasterizer-part-3.py:23 | plain definition with no contract: `x**2 + y**2 + z**2` |
| Vectors.Length | rasterizer-part-3.py:22-23 | plain definition with no contract: `math.sqrt` (a `MathLib` parameter) of the squared length |
| Vectors.Normalize | rasterizer-part-3.py:22-28 | a zero length gives the zero vector (line 27); otherwise scaling the result by the length gives back the vector |
| Vectors.NormalizeZero | rasterizer-part-3.py:25-27 | the zero vector normalises to the zero vector, with no division by zero |
| Vectors.NormalizeUnit | rasterizer-part-3.py:22-28 | a vector of non-zero length normalises to one of unit length, given that `sqrt` returns the non-negative root |
| Scan.Denom | rasterizer-part-3.py:54 | plain definition with no contract: the `denom` of `barycentric`, twice the signed screen area |
| Scan.Inside | rasterizer-part-3.py:91 | plain definition with no contract: the negation of the test `w0 < 0 or w1 < 0 or w2 < 0` |
| Scan.Interpolate | rasterizer-part-3.py:100-101 | plain definition with no contract: `a * w0 + b * w1 + c * w2`; see `InterpolateBarycentric` and `BarycentricInterpolate` |
| Scan.Barycentric | rasterizer-part-3.py:53-60 | a zero denominator gives the sentinel `(-1, -1, -1)`; otherwise the weights sum to 1 |
| Scan.DegenerateRejectsAll | rasterizer-part-3.py:55-56 | a zero-area triangle fails the inside test at every point |
| Scan.InsideIsProper | rasterizer-part-3.py:53-60 | a point that passes the inside test belongs to a non-degenerate triangle and has non-negative weights summing to 1 |
| Scan.CollinearIsDegenerate | rasterizer-part-3.py:54-56 | three collinear vertices (the third at `a + t * (b - a)` in x and y, for any `t`) give the sentinel for every query point |
| Scan.CollinearExample | rasterizer-part-3.py:54-56 | the vertices (0, 0), (1, 1), (2, 2) give the sentinel for every query point |
| Scan.BarycentricAtVertices | rasterizer-part-3.py:53-60 | each vertex has the weights (1,0,0), (0,1,0) or (0,0,1) |
| Scan.InterpolateBarycentric | rasterizer-part-3.py:53-60 | interpolating the vertices with a point's weights gives back the point's x and y |
| Scan.BarycentricInterpolate | rasterizer-part-3.py:53-60 | the weights of an affine combination of the vertices are its coefficients |
| Scan.InsideWithinBounds | rasterizer-part-3.py:53-60 | a point that passes the inside test lies within the min/max of the vertex x and y coordinates |
| Scan.CombinationOffset | rasterizer-part-3.py:57-58 | the offset of an affine combination from the third vertex, in the two forms the numerators use |
| Scan.CombinationWeights | rasterizer-part-3.py:57-58 | the two quotients at an affine combination of the vertices are its first two weights |
| Scan.Solve | rasterizer-part-3.py:57-58 | the quotients recombine the edge vectors into the query offset |
| Scan.Numerators | rasterizer-part-3.py:57-58 | the numerators in the program's own coefficient order are `w0 * denom` and `w1 * denom` |
| Shading.Clamp01 | rasterizer-part-3.py:128-132 | `min(max(c, 0), 1)` lies in [0, 1], is the identity on [0, 1], sends values below 0 to 0 and values above 1 to 1 |
| Shading.ClampColor | rasterizer-part-3.py:128-132 | the clamped colour is in the unit cube and a colour already there is unchanged |
| Shading.ClampIdempotent | rasterizer-part-3.py:128-132 | clamping twice is clamping once |
| Shading.DiffuseTerm | rasterizer-part-3.py:114-115 | plain definition with no contract: `material.diffuse * max(normal.dot(to_light), 0)`; see `ZeroNormalTerms` |
| Shading.SpecularTerm | rasterizer-part-3.py:118-120 | plain definition with no contract: `material.specular * max(normal.dot(halfway), 0) ** shininess`; see `ZeroNormalTerms` |
| Shading.Combine | rasterizer-part-3.py:122-126 | plain definition with no contract: the light colour times the sum of the two terms, channel by channel |
| Shading.ShadePixel | rasterizer-part-3.py:110-132 | every shaded colour lies in the unit cube, for any light, camera, position, normal and material |
| Shading.ZeroNormalTerms | rasterizer-part-3.py:114-120 | with a zero normal the diffuse term vanishes and the specular factor is `0 ** shininess` |
| Shading.ZeroNormalIsBlack | rasterizer-part-3.py:110-132 | a zero normal shades black when `0 ** shininess == 0` |
| Shading.ToChannel | rasterizer-part-3.py:104-108 | `int(c * 255)` maps [0, 1] into 0..255, 1 to 255 and 0 to 0 |
| Shading.ToRgb | rasterizer-part-3.py:104-108 | a colour in the unit cube becomes three channels in 0..255 |
| Shading.ShadedPixelInRange | rasterizer-part-3.py:103-108 | every pixel the shader can produce is a valid 8-bit colour |
| Shading.ToChannelMonotone | rasterizer-part-3.py:104-108 | the 8-bit conversion preserves the order of intensities |
| DepthBuffer.Farther | rasterizer-part-3.py:95 | plain definition with no contract: the skip test `z > zbuffer[y][x]`, false against `inf` |
| DepthBuffer.UpdateAll | rasterizer-part-3.py:95-98 | plain definition with no contract: the depth test applied to one cell for a sequence of fragments in order; see `UpdateAllIsMin` |
| DepthBuffer.Update | rasterizer-part-3.py:95-98 | the new stored depth is no farther than the old one or than `z`; it becomes `z` exactly when `z` is not greater than the stored depth, and otherwise stays |
| DepthBuffer.TieOverwrites | rasterizer-part-3.py:95-98 | a fragment at exactly the stored depth is drawn |
| DepthBuffer.UpdateIdempotent | rasterizer-part-3.py:95-98 | testing the same depth twice is testing it once |
| DepthBuffer.MinOf | rasterizer-part-3.py:95-98 | the minimum is at most every element and equal to one of them |
| DepthBuffer.UpdateAllIsMin | rasterizer-part-3.py:95-98 | starting from the initial `inf`, a cell ends at the minimum of the depths tested there |
| DepthBuffer.DrawnIffNoFartherThanEarlier | rasterizer-part-3.py:95-98 | a fragment in a sequence is drawn exactly when its depth is at most every earlier depth |
| Raster.ScreenCoord | rasterizer-part-3.py:74-75 | plain definition with no contract: `int(t * size / 2)`; see `ScreenCoordInRange`, `ScreenCoordMonotone`, `ScreenCoordNearOrigin` |
| Raster.Project | rasterizer-part-3.py:73-76 | plain definition with no contract: `Renderer.project`, the two screen coordinates and the unchanged `v.z`; see `ProjectOnScreen`, `ProjectMonotone`, `ProjectNearLeftEdge` |
| Raster.ScreenCoordInRange | rasterizer-part-3.py:74-75 | a coordinate in [0, 2) is projected onto one of the `size` pixels |
| Raster.ScreenCoordMonotone | rasterizer-part-3.py:74-75 | screen coordinates are monotone in their argument |
| Raster.ScreenCoordNearOrigin | rasterizer-part-3.py:74-75 | when `abs(t * size / 2) < 1`, the coordinate is 0 on both sides of 0 |
| Raster.TruncMonotone | rasterizer-part-3.py:74-75 | `int()` is monotone |
| Raster.ProjectOnScreen | rasterizer-part-3.py:73-76 | a point with x in [-1, 1) and y in (-1, 1] is projected onto a pixel of the raster |
| Raster.ProjectMonotone | rasterizer-part-3.py:73-76 | the projected x grows with v.x, and the projected y shrinks as v.y grows |
| Raster.ProjectNearLeftEdge | rasterizer-part-3.py:73-76 | a point within `2 / width` of the left edge, on either side, lands on column 0 |
| Raster.BoundingBox | rasterizer-part-3.py:83-86 | the box lies within the raster; it contains exactly the on-screen pixels within the projected vertices' min/max; it is empty exactly when the raster is empty or the triangle is wholly off one side |
| Raster.ProjectedBox | rasterizer-part-3.py:79-86 | plain definition with no contract: the `BoundingBox` of the three projected vertices |
| Raster.PixelWeights | rasterizer-part-3.py:90 | plain definition with no contract: `barycentric(Vector(x, y, 0), p0, p1, p2)` |
| Raster.DepthAt | rasterizer-part-3.py:94 | plain definition with no contract: `tri.v0.z * w0 + tri.v1.z * w1 + tri.v2.z * w2`; see `WeightedFragmentBounds` |
| Raster.ColorAt | rasterizer-part-3.py:100-103 | plain definition with no contract: `shade_pixel` at the interpolated position with the normalised interpolated normal |
| Raster.FragmentOf | rasterizer-part-3.py:90-94 | the loop body produces a fragment exactly when no weight is negative |
| Raster.FragmentAt | rasterizer-part-3.py:83-94 | a pixel has a fragment only if it lies in the clamped box |
| Raster.DepthAfter | rasterizer-part-3.py:95-98 | a cell is never made farther, and changes only to the depth of a fragment |
| Raster.ColorAfter | rasterizer-part-3.py:95-108 | a pixel changes to the fragment's colour exactly when a fragment exists and passes the depth test; otherwise it keeps its colour |
| Raster.FragmentIffCovered | rasterizer-part-3.py:83-92 | a pixel has a fragment exactly when it is on the raster and passes the inside test: clamping the box loses no covered pixel |
| Raster.FragmentAtCovered | rasterizer-part-3.py:90-103 | a covered pixel in the box gets the interpolated depth and the shaded colour |
| Raster.DegenerateHasNoFragments | rasterizer-part-3.py:53-56 | a zero-area projected triangle produces no fragment anywhere |
| Raster.FragmentBounds | rasterizer-part-3.py:94-108 | a fragment's depth lies between the least and greatest vertex depth, and its colour is a valid 8-bit pixel |
| Raster.WeightedFragmentBounds | rasterizer-part-3.py:94-108 | the same for any weights that are non-negative and sum to 1 |
| Raster.RenderAgainChangesNothing | rasterizer-part-3.py:95-108 | applying the same fragment to a cell twice changes neither depth nor colour the second time |
| Raster.ExampleProjection | rasterizer-part-3.py:172-186 | the animation's base triangle projects to pixels (100, 300), (300, 300) and (200, 100) on the 400 x 400 raster |
| Raster.ExampleWeights | rasterizer-part-3.py:53-60 | pixel (200, 200) has weights (1/4, 1/4, 1/2) in that projected triangle |
| Raster.ExampleDepth | rasterizer-part-3.py:94 | those weights give depth 0 |
| Raster.ExampleGeometry | rasterizer-part-3.py:83-90 | the clamped box is 100..300 in both directions, and the centre pixel has those weights |
| Raster.ExampleCentre | rasterizer-part-3.py:172-186 | the centre pixel (200, 200) gets a fragment at depth 0 |
| Raster.ExampleCorner | rasterizer-part-3.py:172-186 | the corner pixel (0, 0) gets no fragment, so rendering leaves it untouched |
| Raster.Renderer.constructor | rasterizer-part-3.py:64-71 | the scene holds exactly the given sizes, camera position, light and math library; the image is black and every depth-buffer cell is `inf`, with both buffers sized to the raster |
| Raster.Renderer.DrawPixel | rasterizer-part-3.py:90-108 | the inner loop body changes only cell `(x, y)`, which becomes `DepthAfter` and `ColorAfter` of its old value and the pixel's fragment |
| Raster.Renderer.DrawRow | rasterizer-part-3.py:89-108 | one pass of the inner loop changes only row `y`, each of whose cells becomes `DepthAfter` / `ColorAfter` of its old value and the pixel's fragment |
| Raster.Renderer.RenderTriangle | rasterizer-part-3.py:78-108 | after the loops over the clamped box, every depth cell and every pixel is `DepthAfter` / `ColorAfter` of its value before the call and the pixel's fragment |

## Left out

- Floating point: the model uses exact reals and unbounded integers. IEEE rounding is not modelled, so weights sum to exactly 1 and `int()` of `inf` or `NaN` cannot arise.
- `math.sqrt` and `**` have no Dafny counterpart over reals, so they are fields of a `MathLib` parameter. Lemmas that need their values state them as preconditions: `SqrtAt`, `sqrt(0) == 0`, `0 ** shininess == 0`. The last one holds only for `shininess > 0`: the model assumes a positive exponent and does not model the errors `**` can raise. For example, `0 ** e` with a negative `e` raises `ZeroDivisionError`, and `0 ** 0` is 1.
- Vectors.Normalize: its contract relates the result to `Length` in both branches and says nothing about `sqrt`. Unit length is stated separately in `NormalizeUnit`, which assumes `sqrt` returns the non-negative root.
- Shading.ShadePixel: only the clamp is stated. The values of the diffuse and specular terms depend on `sqrt` and `**`. The expression is modelled exactly, but no property of the lighting itself (such as the red channel dominating for the base material) is proved.
- `Vector.__repr__` is not modelled, because it only formats text.
- PIL's `Image.new` and `image.load()` are replaced by an `array2<Rgb>` that starts black. Saving images is not modelled.
- The numpy transforms (`vec3_to_np`, `np_to_vec3`, `translate`, `scale`, `rotate_y`, `apply_transform`) and the 60-frame animation loop of the main block are outside the rasterizer core. Only the geometry of the animation's first frame is proved about, in `ExampleCentre` and `ExampleCorner`. These lemmas hold for any light, `MathLib` and material, not only the program's white light and `red_material`.
- Raster.Renderer.constructor: width and height are natural numbers, so negative sizes are excluded. The program hands those to PIL, which raises an error.
- Python's dynamic typing is not modelled: vectors hold reals, and projected points hold integer x and y, as `project` makes them.
