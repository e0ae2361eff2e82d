/** The raster target: projection to pixel coordinates, the clamped bounding box, and
    `Renderer.render_triangle`, which walks the box and updates the depth buffer and
    the pixel buffer in place. */
module Raster {
  import opened Numbers
  import opened Vectors
  import opened Scan
  import opened Shading
  import opened DepthBuffer

  datatype Option<T> = None | Some(value: T)

  /** A triangle: three view-space vertices, three vertex normals and one material. */
  datatype Triangle = Triangle(v0: Vec3, v1: Vec3, v2: Vec3,
                               n0: Vec3, n1: Vec3, n2: Vec3,
                               material: Material)

  /** A projected vertex: integer pixel coordinates and the untouched depth. */
  datatype ScreenPoint = ScreenPoint(x: int, y: int, z: real)
  {
    /** The same point as a `Vector`, as `barycentric` receives it. */
    function ToVec(): Vec3
    {
      Vec3(x as real, y as real, z)
    }
  }

  /** One screen coordinate of `Renderer.project`: `int(t * size / 2)`, where `t` is
      `v.x + 1` for the column and `1 - v.y` for the row. */
  function ScreenCoord(t: real, size: nat): int
  {
    Trunc(t * size as real / 2.0)
  }

  /** `Renderer.project(v)`: `int((v.x + 1) * width / 2)`, `int((1 - v.y) * height / 2)`
      and `v.z`. */
  function Project(width: nat, height: nat, v: Vec3): ScreenPoint
  {
    ScreenPoint(ScreenCoord(v.x + 1.0, width), ScreenCoord(1.0 - v.y, height), v.z)
  }

  /** A coordinate `t` of `[0, 2)` lands on one of the `size` pixels. */
  lemma ScreenCoordInRange(t: real, size: nat)
    requires 0 < size
    requires 0.0 <= t < 2.0
    ensures 0 <= ScreenCoord(t, size) < size
  {
    var k := size as real;
    MulNonNeg(t, k);
    MulNonNeg(2.0 - t, k);
    assert 2.0 * k - t * k == (2.0 - t) * k;
    assert t * k < 2.0 * k;
  }

  /** Screen coordinates are monotone in `t`. */
  lemma ScreenCoordMonotone(s: real, t: real, size: nat)
    requires s <= t
    ensures ScreenCoord(s, size) <= ScreenCoord(t, size)
  {
    var k := size as real;
    MulNonNeg(t - s, k);
    assert t * k - s * k == (t - s) * k;
    TruncMonotone(s * k / 2.0, t * k / 2.0);
  }

  /** Every `t` with `|t * size / 2| < 1` gets coordinate 0, from either side of 0. */
  lemma ScreenCoordNearOrigin(t: real, size: nat)
    requires 0 < size
    requires -2.0 / size as real < t < 2.0 / size as real
    ensures ScreenCoord(t, size) == 0
  {
    var k := size as real;
    var b := 2.0 / k;
    assert b * k == 2.0;
    MulPos(t + b, k);
    MulPos(b - t, k);
    assert (t + b) * k == t * k + 2.0;
    assert (b - t) * k == 2.0 - t * k;
    TruncNearZero(t * k / 2.0);
  }

  /** Because `int()` truncates, a vertex slightly left of the visible square is projected
      onto column 0, the same column as one slightly right of its edge (a floor would put
      it on column -1, outside the raster). */
  lemma ProjectNearLeftEdge(width: nat, height: nat, v: Vec3)
    requires 0 < width
    requires -1.0 - 2.0 / width as real < v.x < -1.0 + 2.0 / width as real
    ensures Project(width, height, v).x == 0
  {
    ScreenCoordNearOrigin(v.x + 1.0, width);
  }

  lemma TruncMonotone(r: real, s: real)
    requires r <= s
    ensures Trunc(r) <= Trunc(s)
  {
  }

  /** A point of the visible square `[-1, 1) x (-1, 1]` lands on a pixel of the raster. */
  lemma ProjectOnScreen(width: nat, height: nat, v: Vec3)
    requires 0 < width && 0 < height
    requires -1.0 <= v.x < 1.0 && -1.0 < v.y <= 1.0
    ensures 0 <= Project(width, height, v).x < width
    ensures 0 <= Project(width, height, v).y < height
  {
    ScreenCoordInRange(v.x + 1.0, width);
    ScreenCoordInRange(1.0 - v.y, height);
  }

  /** Projection moves x to the right as v.x grows, and y down as v.y grows. */
  lemma ProjectMonotone(width: nat, height: nat, u: Vec3, v: Vec3)
    requires u.x <= v.x && u.y <= v.y
    ensures Project(width, height, u).x <= Project(width, height, v).x
    ensures Project(width, height, v).y <= Project(width, height, u).y
  {
    ScreenCoordMonotone(u.x + 1.0, v.x + 1.0, width);
    ScreenCoordMonotone(1.0 - v.y, 1.0 - u.y, height);
  }

  /** The inclusive pixel ranges `min_x..max_x` and `min_y..max_y`. */
  datatype Box = Box(minX: int, maxX: int, minY: int, maxY: int)
  {
    predicate Contains(x: int, y: int)
    {
      minX <= x <= maxX && minY <= y <= maxY
    }

    predicate IsEmpty()
    {
      maxX < minX || maxY < minY
    }
  }

  /** The bounding box of the projected vertices, clamped to the raster. */
  function BoundingBox(width: nat, height: nat, p0: ScreenPoint, p1: ScreenPoint, p2: ScreenPoint): (b: Box)
    ensures 0 <= b.minX && b.maxX <= width - 1 && 0 <= b.minY && b.maxY <= height - 1
    ensures forall x, y :: b.Contains(x, y) <==>
      (0 <= x < width && 0 <= y < height &&
       Min3Int(p0.x, p1.x, p2.x) <= x <= Max3Int(p0.x, p1.x, p2.x) &&
       Min3Int(p0.y, p1.y, p2.y) <= y <= Max3Int(p0.y, p1.y, p2.y))
    ensures b.IsEmpty() <==>
      (width == 0 || height == 0 ||
       Max3Int(p0.x, p1.x, p2.x) < 0 || width <= Min3Int(p0.x, p1.x, p2.x) ||
       Max3Int(p0.y, p1.y, p2.y) < 0 || height <= Min3Int(p0.y, p1.y, p2.y))
  {
    Box(MaxInt(Min3Int(p0.x, p1.x, p2.x), 0), MinInt(Max3Int(p0.x, p1.x, p2.x), width - 1),
        MaxInt(Min3Int(p0.y, p1.y, p2.y), 0), MinInt(Max3Int(p0.y, p1.y, p2.y), height - 1))
  }

  /** The renderer's fixed configuration: raster size, camera position, the one light,
      and the `math.sqrt` and `**` it uses. */
  datatype Scene = Scene(width: nat, height: nat, cameraPos: Vec3, light: Light, lib: MathLib)

  /** What one triangle contributes at one pixel: its interpolated depth and the colour
      that would be written there. */
  datatype Fragment = Fragment(depth: real, color: Rgb)

  /** The vertices of a triangle projected by `Renderer.project`. */
  function ProjectedBox(scene: Scene, tri: Triangle): Box
  {
    BoundingBox(scene.width, scene.height,
                Project(scene.width, scene.height, tri.v0),
                Project(scene.width, scene.height, tri.v1),
                Project(scene.width, scene.height, tri.v2))
  }

  /** The barycentric weights of pixel `(x, y)` against the projected triangle. */
  function PixelWeights(scene: Scene, tri: Triangle, x: int, y: int): Weights
  {
    Barycentric(Vec3(x as real, y as real, 0.0),
                Project(scene.width, scene.height, tri.v0).ToVec(),
                Project(scene.width, scene.height, tri.v1).ToVec(),
                Project(scene.width, scene.height, tri.v2).ToVec())
  }

  /** What the loop body makes of a pixel with weights `w`: nothing if a weight is
      negative; otherwise the depth interpolated from the un-projected vertices and the
      colour shaded at the interpolated position with the normalised interpolated normal. */
  function FragmentOf(scene: Scene, tri: Triangle, w: Weights): (f: Option<Fragment>)
    ensures f.Some? <==> Inside(w)
  {
    if w.w0 < 0.0 || w.w1 < 0.0 || w.w2 < 0.0 then None
    else Some(Fragment(DepthAt(tri, w), ToRgb(ColorAt(scene, tri, w))))
  }

  /** `tri.v0.z * w0 + tri.v1.z * w1 + tri.v2.z * w2`. */
  function DepthAt(tri: Triangle, w: Weights): real
  {
    tri.v0.z * w.w0 + tri.v1.z * w.w1 + tri.v2.z * w.w2
  }

  /** `shade_pixel` at the interpolated position with the normalised interpolated normal. */
  function ColorAt(scene: Scene, tri: Triangle, w: Weights): Vec3
  {
    var pos := Interpolate(tri.v0, tri.v1, tri.v2, w);
    var normal := Normalize(scene.lib, Interpolate(tri.n0, tri.n1, tri.n2, w));
    ShadePixel(scene.lib, scene.light, scene.cameraPos, pos, normal, tri.material)
  }

  /** The fragment the render loop produces at `(x, y)`: none outside the clamped box,
      otherwise what the loop body makes of the pixel's weights. */
  function FragmentAt(scene: Scene, tri: Triangle, x: int, y: int): (f: Option<Fragment>)
    ensures f.Some? ==> ProjectedBox(scene, tri).Contains(x, y)
  {
    if !ProjectedBox(scene, tri).Contains(x, y) then None
    else FragmentOf(scene, tri, PixelWeights(scene, tri, x, y))
  }

  /** A depth-buffer cell after the triangle has been rendered. */
  function DepthAfter(stored: Depth, f: Option<Fragment>): (r: Depth)
    ensures NoFarther(r, stored)
    ensures r != stored ==> f.Some? && r == Finite(f.value.depth)
  {
    if f.Some? then Update(stored, f.value.depth) else stored
  }

  /** A pixel after the triangle has been rendered: written exactly when the depth passes. */
  function ColorAfter(stored: Rgb, storedDepth: Depth, f: Option<Fragment>): (r: Rgb)
    ensures f.None? ==> r == stored
    ensures f.Some? && !Farther(f.value.depth, storedDepth) ==> r == f.value.color
    ensures f.Some? && Farther(f.value.depth, storedDepth) ==> r == stored
  {
    if f.Some? && !Farther(f.value.depth, storedDepth) then f.value.color else stored
  }

  /** The clamped box loses nothing: a pixel gets a fragment exactly when it is on the
      raster and its weights against the projected triangle are all non-negative. */
  lemma FragmentIffCovered(scene: Scene, tri: Triangle, x: int, y: int)
    ensures FragmentAt(scene, tri, x, y).Some? <==>
      (0 <= x < scene.width && 0 <= y < scene.height && Inside(PixelWeights(scene, tri, x, y)))
  {
    var p0 := Project(scene.width, scene.height, tri.v0);
    var p1 := Project(scene.width, scene.height, tri.v1);
    var p2 := Project(scene.width, scene.height, tri.v2);
    if 0 <= x < scene.width && 0 <= y < scene.height && Inside(PixelWeights(scene, tri, x, y)) {
      InsideWithinBounds(Vec3(x as real, y as real, 0.0), p0.ToVec(), p1.ToVec(), p2.ToVec());
      assert Min3Real(p0.x as real, p1.x as real, p2.x as real) == Min3Int(p0.x, p1.x, p2.x) as real;
      assert Max3Real(p0.x as real, p1.x as real, p2.x as real) == Max3Int(p0.x, p1.x, p2.x) as real;
      assert Min3Real(p0.y as real, p1.y as real, p2.y as real) == Min3Int(p0.y, p1.y, p2.y) as real;
      assert Max3Real(p0.y as real, p1.y as real, p2.y as real) == Max3Int(p0.y, p1.y, p2.y) as real;
      assert ProjectedBox(scene, tri).Contains(x, y);
    }
  }

  /** At a pixel of the box whose weights pass the test, the fragment carries the
      interpolated depth and the shaded colour. */
  lemma FragmentAtCovered(scene: Scene, tri: Triangle, x: int, y: int, w: Weights)
    requires ProjectedBox(scene, tri).Contains(x, y)
    requires PixelWeights(scene, tri, x, y) == w
    requires Inside(w)
    ensures FragmentAt(scene, tri, x, y) == Some(Fragment(DepthAt(tri, w), ToRgb(ColorAt(scene, tri, w))))
  {
  }

  /** A triangle whose projection has zero area produces no fragment anywhere. */
  lemma DegenerateHasNoFragments(scene: Scene, tri: Triangle, x: int, y: int)
    requires Denom(Project(scene.width, scene.height, tri.v0).ToVec(),
                   Project(scene.width, scene.height, tri.v1).ToVec(),
                   Project(scene.width, scene.height, tri.v2).ToVec()) == 0.0
    ensures FragmentAt(scene, tri, x, y) == None
  {
  }

  /** A fragment's depth lies between the least and greatest vertex depths, and its
      colour is a valid 8-bit pixel. */
  lemma FragmentBounds(scene: Scene, tri: Triangle, x: int, y: int)
    requires FragmentAt(scene, tri, x, y).Some?
    ensures var f := FragmentAt(scene, tri, x, y).value;
      Min3Real(tri.v0.z, tri.v1.z, tri.v2.z) <= f.depth <= Max3Real(tri.v0.z, tri.v1.z, tri.v2.z) &&
      IsByteColor(f.color)
  {
    InsideIsProper(Vec3(x as real, y as real, 0.0),
                   Project(scene.width, scene.height, tri.v0).ToVec(),
                   Project(scene.width, scene.height, tri.v1).ToVec(),
                   Project(scene.width, scene.height, tri.v2).ToVec());
    WeightedFragmentBounds(scene, tri, PixelWeights(scene, tri, x, y));
  }

  /** The same for the fragment of any weights that are non-negative and sum to 1. */
  lemma WeightedFragmentBounds(scene: Scene, tri: Triangle, w: Weights)
    requires 0.0 <= w.w0 && 0.0 <= w.w1 && 0.0 <= w.w2 && w.w0 + w.w1 + w.w2 == 1.0
    ensures FragmentOf(scene, tri, w).Some?
    ensures var f := FragmentOf(scene, tri, w).value;
      Min3Real(tri.v0.z, tri.v1.z, tri.v2.z) <= f.depth <= Max3Real(tri.v0.z, tri.v1.z, tri.v2.z) &&
      IsByteColor(f.color)
  {
    ConvexBetween(tri.v0.z, tri.v1.z, tri.v2.z, w.w0, w.w1, w.w2, DepthAt(tri, w));
  }

  /** Rendering a triangle into a cell a second time changes neither depth nor colour. */
  lemma RenderAgainChangesNothing(stored: Depth, color: Rgb, f: Option<Fragment>)
    ensures DepthAfter(DepthAfter(stored, f), f) == DepthAfter(stored, f)
    ensures ColorAfter(ColorAfter(color, stored, f), DepthAfter(stored, f), f)
         == ColorAfter(color, stored, f)
  {
  }

  /** The scene of the program's animation, frame 0: the triangle (-0.5, -0.5, 0),
      (0.5, -0.5, 0), (0, 0.5, 0) on a 400 x 400 raster, seen from (0, 0, 3). */
  function ExampleScene(light: Light, lib: MathLib): Scene
  {
    Scene(400, 400, Vec3(0.0, 0.0, 3.0), light, lib)
  }

  function ExampleTriangle(material: Material): Triangle
  {
    var n := Vec3(0.0, 0.0, 1.0);
    Triangle(Vec3(-0.5, -0.5, 0.0), Vec3(0.5, -0.5, 0.0), Vec3(0.0, 0.5, 0.0), n, n, n, material)
  }

  /** Its vertices land on pixels (100, 300), (300, 300) and (200, 100). */
  lemma ExampleProjection(material: Material)
    ensures Project(400, 400, ExampleTriangle(material).v0) == ScreenPoint(100, 300, 0.0)
    ensures Project(400, 400, ExampleTriangle(material).v1) == ScreenPoint(300, 300, 0.0)
    ensures Project(400, 400, ExampleTriangle(material).v2) == ScreenPoint(200, 100, 0.0)
  {
    TruncOfInteger(100);
    TruncOfInteger(200);
    TruncOfInteger(300);
    assert ScreenCoord(0.5, 400) == Trunc(100.0);
    assert ScreenCoord(1.5, 400) == Trunc(300.0);
    assert ScreenCoord(1.0, 400) == Trunc(200.0);
  }

  /** The centre pixel (200, 200) has weights (1/4, 1/4, 1/2), so it is covered at
      depth 0. */
  lemma ExampleCentre(light: Light, lib: MathLib, material: Material)
    ensures var f := FragmentAt(ExampleScene(light, lib), ExampleTriangle(material), 200, 200);
      f.Some? && f.value.depth == 0.0
  {
    var scene, tri := ExampleScene(light, lib), ExampleTriangle(material);
    var w := Weights(0.25, 0.25, 0.5);
    ExampleGeometry(light, lib, material);
    FragmentAtCovered(scene, tri, 200, 200, w);
    ExampleDepth(material);
  }

  /** The corner pixel (0, 0) lies outside the clamped box. */
  lemma ExampleCorner(light: Light, lib: MathLib, material: Material)
    ensures FragmentAt(ExampleScene(light, lib), ExampleTriangle(material), 0, 0).None?
  {
    ExampleGeometry(light, lib, material);
  }

  /** The clamped box of the example is 100..300 in both directions, and the centre
      pixel's weights are (1/4, 1/4, 1/2). */
  lemma ExampleGeometry(light: Light, lib: MathLib, material: Material)
    ensures ProjectedBox(ExampleScene(light, lib), ExampleTriangle(material)) == Box(100, 300, 100, 300)
    ensures PixelWeights(ExampleScene(light, lib), ExampleTriangle(material), 200, 200)
         == Weights(0.25, 0.25, 0.5)
  {
    ExampleProjection(material);
    ExampleWeights();
  }

  lemma ExampleDepth(material: Material)
    ensures DepthAt(ExampleTriangle(material), Weights(0.25, 0.25, 0.5)) == 0.0
  {
  }

  lemma ExampleWeights()
    ensures Barycentric(Vec3(200.0, 200.0, 0.0), Vec3(100.0, 300.0, 0.0), Vec3(300.0, 300.0, 0.0),
                        Vec3(200.0, 100.0, 0.0)) == Weights(0.25, 0.25, 0.5)
  {
    assert Denom(Vec3(100.0, 300.0, 0.0), Vec3(300.0, 300.0, 0.0), Vec3(200.0, 100.0, 0.0)) == -40000.0;
  }

  /** `Renderer`: the raster configuration, the pixel buffer (indexed `[x, y]`, one column
      per x) and the depth buffer (indexed `[y, x]`, one row per y). */
  class Renderer {
    const scene: Scene
    const pixels: array2<Rgb>
    const zbuffer: array2<Depth>

    ghost predicate Valid()
    {
      pixels.Length0 == scene.width && pixels.Length1 == scene.height &&
      zbuffer.Length0 == scene.height && zbuffer.Length1 == scene.width
    }

    /** A black image and a depth buffer of infinities. */
    constructor (width: nat, height: nat, cameraPos: Vec3, light: Light, lib: MathLib)
      ensures Valid() && fresh(pixels) && fresh(zbuffer)
      ensures scene == Scene(width, height, cameraPos, light, lib)
      ensures forall x, y :: 0 <= x < width && 0 <= y < height ==> pixels[x, y] == Black
      ensures forall y, x :: 0 <= y < height && 0 <= x < width ==> zbuffer[y, x] == Infinity
    {
      scene := Scene(width, height, cameraPos, light, lib);
      pixels := new Rgb[width, height]((x, y) => Black);
      zbuffer := new Depth[height, width]((y, x) => Infinity);
    }

    /** The body of the inner loop of `render_triangle` at pixel `(x, y)` of the box:
        the barycentric test, the depth test, the depth write and the pixel write. The
        ghost parameter `frag` stands for `FragmentAt` of this triangle, as in `DrawRow`. */
    method DrawPixel(tri: Triangle, p0: ScreenPoint, p1: ScreenPoint, p2: ScreenPoint, x: int, y: int,
                     ghost frag: (int, int) -> Option<Fragment>)
      requires Valid()
      requires p0 == Project(scene.width, scene.height, tri.v0)
      requires p1 == Project(scene.width, scene.height, tri.v1)
      requires p2 == Project(scene.width, scene.height, tri.v2)
      requires ProjectedBox(scene, tri).Contains(x, y)
      requires forall xx, yy {:trigger FragmentAt(scene, tri, xx, yy)} ::
        frag(xx, yy) == FragmentAt(scene, tri, xx, yy)
      modifies pixels, zbuffer
      ensures zbuffer[y, x] == DepthAfter(old(zbuffer[y, x]), frag(x, y))
      ensures pixels[x, y] == ColorAfter(old(pixels[x, y]), old(zbuffer[y, x]), frag(x, y))
      ensures forall yy, xx :: 0 <= yy < zbuffer.Length0 && 0 <= xx < zbuffer.Length1 && (yy, xx) != (y, x) ==>
        zbuffer[yy, xx] == old(zbuffer[yy, xx])
      ensures forall xx, yy :: 0 <= xx < pixels.Length0 && 0 <= yy < pixels.Length1 && (xx, yy) != (x, y) ==>
        pixels[xx, yy] == old(pixels[xx, yy])
    {
      var w := Barycentric(Vec3(x as real, y as real, 0.0), p0.ToVec(), p1.ToVec(), p2.ToVec());
      ghost var f := FragmentOf(scene, tri, w);
      assert FragmentAt(scene, tri, x, y) == f;
      if !(w.w0 < 0.0 || w.w1 < 0.0 || w.w2 < 0.0) {
        var z := DepthAt(tri, w);
        if !Farther(z, zbuffer[y, x]) {
          zbuffer[y, x] := Finite(z);
          var color := ColorAt(scene, tri, w);
          pixels[x, y] := ToRgb(color);
        }
      } else {
        assert f == None;
      }
    }

    /** One pass of the inner loop of `render_triangle`: row `y` of the box, column by
        column. Only the cells of row `y` change, each by the per-pixel rule. The ghost
        parameter `frag` names the fragments of the triangle, so that the loop's reasoning
        stays about cells rather than about how a fragment is computed. */
    method DrawRow(tri: Triangle, p0: ScreenPoint, p1: ScreenPoint, p2: ScreenPoint, y: int,
                   ghost frag: (int, int) -> Option<Fragment>)
      requires Valid()
      requires p0 == Project(scene.width, scene.height, tri.v0)
      requires p1 == Project(scene.width, scene.height, tri.v1)
      requires p2 == Project(scene.width, scene.height, tri.v2)
      requires ProjectedBox(scene, tri).minY <= y <= ProjectedBox(scene, tri).maxY
      requires forall xx, yy {:trigger FragmentAt(scene, tri, xx, yy)} ::
        frag(xx, yy) == FragmentAt(scene, tri, xx, yy)
      requires forall xx, yy :: frag(xx, yy).Some? ==> ProjectedBox(scene, tri).Contains(xx, yy)
      modifies pixels, zbuffer
      ensures forall yy, xx :: 0 <= yy < scene.height && 0 <= xx < scene.width ==>
        zbuffer[yy, xx] == if yy == y then DepthAfter(old(zbuffer[yy, xx]), frag(xx, yy))
                           else old(zbuffer[yy, xx])
      ensures forall xx, yy :: 0 <= xx < scene.width && 0 <= yy < scene.height ==>
        pixels[xx, yy] == if yy == y then ColorAfter(old(pixels[xx, yy]), old(zbuffer[yy, xx]), frag(xx, yy))
                          else old(pixels[xx, yy])
    {
      var box := BoundingBox(scene.width, scene.height, p0, p1, p2);
      var x := box.minX;
      while x <= box.maxX
        invariant box.minX <= x && (x <= box.maxX + 1 || x == box.minX)
        invariant forall yy, xx :: 0 <= yy < scene.height && 0 <= xx < scene.width ==>
          zbuffer[yy, xx] == if yy == y && xx < x then DepthAfter(old(zbuffer[yy, xx]), frag(xx, yy))
                             else old(zbuffer[yy, xx])
        invariant forall xx, yy :: 0 <= xx < scene.width && 0 <= yy < scene.height ==>
          pixels[xx, yy] == if yy == y && xx < x
                            then ColorAfter(old(pixels[xx, yy]), old(zbuffer[yy, xx]), frag(xx, yy))
                            else old(pixels[xx, yy])
      {
        DrawPixel(tri, p0, p1, p2, x, y, frag);
        x := x + 1;
      }
    }

    /** `render_triangle(tri)`. Every cell ends as the per-pixel rule makes it from its
        value before the call: depth and colour change only where the triangle has a
        fragment no farther than the stored depth; nothing else is touched. */
    method RenderTriangle(tri: Triangle)
      requires Valid()
      modifies pixels, zbuffer
      ensures forall y, x :: 0 <= y < scene.height && 0 <= x < scene.width ==>
        zbuffer[y, x] == DepthAfter(old(zbuffer[y, x]), FragmentAt(scene, tri, x, y))
      ensures forall x, y :: 0 <= x < scene.width && 0 <= y < scene.height ==>
        pixels[x, y] == ColorAfter(old(pixels[x, y]), old(zbuffer[y, x]), FragmentAt(scene, tri, x, y))
    {
      ghost var frag := (xx: int, yy: int) => FragmentAt(scene, tri, xx, yy);
      var p0 := Project(scene.width, scene.height, tri.v0);
      var p1 := Project(scene.width, scene.height, tri.v1);
      var p2 := Project(scene.width, scene.height, tri.v2);
      var box := BoundingBox(scene.width, scene.height, p0, p1, p2);
      var y := box.minY;
      while y <= box.maxY
        invariant box.minY <= y && (y <= box.maxY + 1 || y == box.minY)
        invariant forall yy, xx :: 0 <= yy < scene.height && 0 <= xx < scene.width ==>
          zbuffer[yy, xx] == if yy < y then DepthAfter(old(zbuffer[yy, xx]), frag(xx, yy))
                             else old(zbuffer[yy, xx])
        invariant forall xx, yy :: 0 <= xx < scene.width && 0 <= yy < scene.height ==>
          pixels[xx, yy] == if yy < y then ColorAfter(old(pixels[xx, yy]), old(zbuffer[yy, xx]), frag(xx, yy))
                            else old(pixels[xx, yy])
      {
        DrawRow(tri, p0, p1, p2, y, frag);
        y := y + 1;
      }
    }
  }
}
