/** The pixel loop of the ray caster: `rayFromPixelPosition` turns a pixel
    into a view offset and then into a ray, and `main` visits the pixels row
    by row, top row first and left to right, ending every row with a line
    break.
 */
module Frame {
  import opened Vectors
  import opened Geometry
  import opened Optional
  import opened Scene
  import opened Raster

  /** The camera: position, viewing direction, up vector and field of view
      in degrees. */
  datatype Camera = Camera(position: Vec3, direction: Vec3, up: Vec3, fov: real)

  /** The camera of `main`: at the origin, looking along +y with +z up. */
  const DefaultCamera: Camera := Camera(Zero, Vec3(0.0, 1.0, 0.0), Vec3(0.0, 0.0, 1.0), 35.0)

  /** Everything a frame depends on. `yFactor` is the value of
      `tan(FOV · π / 180)`, which cannot be computed over the reals. The
      program's own frame uses the `AsWritten` test. */
  datatype Setup = Setup(camera: Camera, yFactor: real, balls: seq<Ball>, background: Color, test: BallTest)

  /** `direction + right · xd + up · yd` with `right = cross(direction, up)`,
      the aspect ratio `WIDTH / HEIGHT` on the horizontal factor, and the
      offsets scaled by the field-of-view factor. */
  function ViewDirection(x: int, y: int, cam: Camera, yFactor: real): Vec3 {
    var right := Cross(cam.direction, cam.up);
    var xFactor := yFactor * (Width as real / Height as real);
    Add(Add(cam.direction, Scale(right, XOffset(x) * xFactor)), Scale(cam.up, YOffset(y) * yFactor))
  }

  /** For a unit viewing direction orthogonal to `up`, the unnormalised ray
      reaches the image plane at distance 1 in front of the camera. */
  lemma {:induction false} ViewDirectionOnImagePlane(x: int, y: int, cam: Camera, yFactor: real)
    requires Dot(cam.direction, cam.direction) == 1.0
    requires Dot(cam.up, cam.direction) == 0.0
    ensures Dot(ViewDirection(x, y, cam, yFactor), cam.direction) == 1.0
  {
    var right := Cross(cam.direction, cam.up);
    var a := Scale(right, XOffset(x) * yFactor * (Width as real / Height as real));
    var b := Scale(cam.up, YOffset(y) * yFactor);
    DotAddLeft(Add(cam.direction, a), b, cam.direction);
    DotAddLeft(cam.direction, a, cam.direction);
    DotScaleLeft(right, XOffset(x) * yFactor * (Width as real / Height as real), cam.direction);
    DotScaleLeft(cam.up, YOffset(y) * yFactor, cam.direction);
  }

  /** For a unit `up` orthogonal to the viewing direction, the height of the
      unnormalised ray along `up` is the row's vertical offset scaled by the
      field-of-view factor. */
  lemma {:induction false} ViewDirectionHeight(x: int, y: int, cam: Camera, yFactor: real)
    requires Dot(cam.up, cam.up) == 1.0
    requires Dot(cam.direction, cam.up) == 0.0
    ensures Dot(ViewDirection(x, y, cam, yFactor), cam.up) == YOffset(y) * yFactor
  {
    var right := Cross(cam.direction, cam.up);
    var a := Scale(right, XOffset(x) * yFactor * (Width as real / Height as real));
    var b := Scale(cam.up, YOffset(y) * yFactor);
    DotAddLeft(Add(cam.direction, a), b, cam.up);
    DotAddLeft(cam.direction, a, cam.up);
    DotScaleLeft(right, XOffset(x) * yFactor * (Width as real / Height as real), cam.up);
    DotScaleLeft(cam.up, YOffset(y) * yFactor, cam.up);
  }

  /** The camera of `main` looks along a unit direction with a unit `up`
      orthogonal to it, so it meets the requirements of
      `ViewDirectionOnImagePlane` and `ViewDirectionHeight`; its `right` is
      +x. */
  lemma DefaultCameraIsUpright()
    ensures Dot(DefaultCamera.direction, DefaultCamera.direction) == 1.0
    ensures Dot(DefaultCamera.up, DefaultCamera.up) == 1.0
    ensures Dot(DefaultCamera.up, DefaultCamera.direction) == 0.0
    ensures Dot(DefaultCamera.direction, DefaultCamera.up) == 0.0
    ensures Cross(DefaultCamera.direction, DefaultCamera.up) == Vec3(1.0, 0.0, 0.0)
  {
    var d, u := DefaultCamera.direction, DefaultCamera.up;
    assert d == Vec3(0.0, 1.0, 0.0) && u == Vec3(0.0, 0.0, 1.0);
    UnitY(d);
    UnitZ(u);
    AxesOrthogonal(d, u);
    CrossYZ(d, u);
  }

  // One fact about the axes per lemma, with the vectors passed as
  // parameters pinned to literals: kept apart, each proof stays small for
  // the solver, which does not finish them together.

  lemma UnitY(d: Vec3)
    requires d == Vec3(0.0, 1.0, 0.0)
    ensures Dot(d, d) == 1.0
  {
  }

  lemma UnitZ(u: Vec3)
    requires u == Vec3(0.0, 0.0, 1.0)
    ensures Dot(u, u) == 1.0
  {
  }

  lemma AxesOrthogonal(d: Vec3, u: Vec3)
    requires d == Vec3(0.0, 1.0, 0.0) && u == Vec3(0.0, 0.0, 1.0)
    ensures Dot(u, d) == 0.0 && Dot(d, u) == 0.0
  {
  }

  lemma CrossYZ(d: Vec3, u: Vec3)
    requires d == Vec3(0.0, 1.0, 0.0) && u == Vec3(0.0, 0.0, 1.0)
    ensures Cross(d, u) == Vec3(1.0, 0.0, 0.0)
  {
  }

  /** Along `right = cross(direction, up)`, the unnormalised ray moves by
      the column's horizontal offset, scaled by the field-of-view factor and
      the aspect ratio, in units of `right`'s squared length. */
  lemma {:induction false} ViewDirectionSideways(x: int, y: int, cam: Camera, yFactor: real)
    ensures var right := Cross(cam.direction, cam.up);
            Dot(ViewDirection(x, y, cam, yFactor), right)
            == XOffset(x) * yFactor * (Width as real / Height as real) * LengthSquared(right)
  {
    var right := Cross(cam.direction, cam.up);
    var k := XOffset(x) * yFactor * (Width as real / Height as real);
    var a := Scale(right, k);
    var b := Scale(cam.up, YOffset(y) * yFactor);
    DotAddLeft(Add(cam.direction, a), b, right);
    DotAddLeft(cam.direction, a, right);
    DotScaleLeft(right, k, right);
    DotScaleLeft(cam.up, YOffset(y) * yFactor, right);
    DotSymmetric(right, cam.direction);
    DotSymmetric(right, cam.up);
  }

  lemma CentrePixelLooksAhead(cam: Camera, yFactor: real)
    ensures ViewDirection(Width / 2, Height / 2 - 1, cam, yFactor) == cam.direction
  {
    CentrePixelOffsets();
  }

  /** `ray / length(ray)`. Over doubles a zero length gives NaN components,
      on which every later comparison fails; here that case is `None`. Any
      other vector becomes a positive multiple of itself of length 1. */
  function Normalize(v: Vec3, sqrt: real -> real): (r: Option<Vec3>)
    ensures IsSquareRoot(sqrt) ==> (r.None? <==> LengthSquared(v) == 0.0)
    ensures r.Some? && IsSquareRoot(sqrt) ==> exists k: real :: k > 0.0 && r.value == Scale(v, k)
    ensures r.Some? && IsSquareRoot(sqrt) ==> LengthSquared(r.value) == 1.0 && sqrt(LengthSquared(r.value)) == 1.0
  {
    var len := sqrt(LengthSquared(v));
    if len == 0.0 then None
    else
      PositiveInverse(len);
      UnitAfterDivision(v, len);
      SqrtOfOne(sqrt);
      Some(Scale(v, 1.0 / len))
  }

  lemma PositiveInverse(s: real)
    ensures s > 0.0 ==> 1.0 / s > 0.0
  {
  }

  /** Dividing a vector by its length leaves a vector of squared length 1. */
  lemma UnitAfterDivision(v: Vec3, len: real)
    ensures len != 0.0 && len * len == LengthSquared(v) ==> LengthSquared(Scale(v, 1.0 / len)) == 1.0
  {
    if len != 0.0 && len * len == LengthSquared(v) {
      LengthSquaredScale(v, 1.0 / len);
      assert (1.0 / len) * (1.0 / len) * (len * len) == 1.0;
    }
  }

  /** A true square root maps 1 to 1. */
  lemma SqrtOfOne(sqrt: real -> real)
    ensures IsSquareRoot(sqrt) ==> sqrt(1.0) == 1.0
  {
    if IsSquareRoot(sqrt) {
      var s := sqrt(1.0);
      assert s * s == 1.0 && s >= 0.0;
      if s != 1.0 {
        SquareOfNonUnit(s);
      }
    }
  }

  /** No non-negative number other than 1 squares to 1. */
  lemma SquareOfNonUnit(s: real)
    requires 0.0 <= s && s != 1.0
    ensures s * s != 1.0
  {
    if s < 1.0 {
      assert s * s <= s * 1.0;
    }
  }

  /** `rayFromPixelPosition`: starts at the camera and points along the
      normalised view direction of the pixel, a unit vector. */
  function RayFromPixel(x: int, y: int, cam: Camera, yFactor: real, sqrt: real -> real): (r: Option<Ray>)
    ensures IsSquareRoot(sqrt) ==> (r.None? <==> LengthSquared(ViewDirection(x, y, cam, yFactor)) == 0.0)
    ensures r.Some? ==> r.value.origin == cam.position
    ensures r.Some? && IsSquareRoot(sqrt) ==>
              exists k: real :: k > 0.0 && r.value.direction == Scale(ViewDirection(x, y, cam, yFactor), k)
    ensures r.Some? && IsSquareRoot(sqrt) ==> Dot(r.value.direction, r.value.direction) == 1.0
  {
    match Normalize(ViewDirection(x, y, cam, yFactor), sqrt)
    case None => None
    case Some(d) => Some(Ray(cam.position, d))
  }

  /** The colour written for pixel `(x, y)`: the nearest-hit colour along
      its ray, or the background when the ray has no direction. */
  function PixelColor(x: int, y: int, setup: Setup, sqrt: real -> real): Color {
    match RayFromPixel(x, y, setup.camera, setup.yFactor, sqrt)
    case None => setup.background
    case Some(ray) => ShadeRay(setup.test, ray, setup.balls, setup.background, sqrt)
  }

  /** One item of the image body: a pixel's colour or a line break. */
  datatype Emit = Pixel(color: Color) | EndRow

  /** What the pixel loop writes for one step. */
  function Output(step: Step, setup: Setup, sqrt: real -> real): Emit {
    match step
    case Visit(x, y) => Pixel(PixelColor(x, y, setup, sqrt))
    case NewLine => EndRow
  }

  /** The image body `main` writes: one item per step of the pixel loop. */
  function Image(setup: Setup, sqrt: real -> real): (r: seq<Emit>)
    ensures |r| == 600 * 801
  {
    seq(600 * 801, i requires 0 <= i < 600 * 801 => Output(StepAt(i), setup, sqrt))
  }

  /** Item `i` of the image is what the pixel loop writes at its step `i`. */
  lemma ImageFollowsOrder(i: int, setup: Setup, sqrt: real -> real)
    requires 0 <= i < |Order()|
    ensures Image(setup, sqrt)[i] == Output(Order()[i], setup, sqrt)
  {
    OrderIsRowMajor(i);
  }

  /** The image holds `HEIGHT` rows of `WIDTH + 1` items: item
      `y · (WIDTH + 1) + x` is the colour of pixel `(x, y)` for `x < WIDTH`
      and the line break for `x = WIDTH`. */
  lemma ImageLayout(x: int, y: int, setup: Setup, sqrt: real -> real)
    requires 0 <= y < Height && 0 <= x <= Width
    ensures x < Width ==> Image(setup, sqrt)[y * 801 + x] == Pixel(PixelColor(x, y, setup, sqrt))
    ensures x == Width ==> Image(setup, sqrt)[y * 801 + x] == EndRow
  {
    StepAtCell(x, y);
  }

  /** The body of the pixel loop: the ray of the pixel and the scan over
      the balls, starting from the background colour. */
  method RenderPixel(x: int, y: int, setup: Setup, sqrt: real -> real) returns (color: Color)
    ensures color == PixelColor(x, y, setup, sqrt)
  {
    color := setup.background;
    var ray := RayFromPixel(x, y, setup.camera, setup.yFactor, sqrt);
    if ray.Some? {
      color := ResolvePixel(setup.test, ray.value, setup.balls, setup.background, sqrt);
    }
  }

  /** The nested pixel loop of `main`: builds the image body item by item. */
  method Render(setup: Setup, sqrt: real -> real) returns (out: seq<Emit>)
    ensures out == Image(setup, sqrt)
  {
    ghost var image := Image(setup, sqrt);
    out := [];
    for y := 0 to Height
      invariant |out| == y * 801
      invariant out == image[..|out|]
    {
      for x := 0 to Width
        invariant |out| == y * 801 + x
        invariant out == image[..|out|]
      {
        var color := RenderPixel(x, y, setup, sqrt);
        ImageLayout(x, y, setup, sqrt);
        GrowPrefix(out, image);
        out := out + [Pixel(color)];
      }
      ImageLayout(Width, y, setup, sqrt);
      GrowPrefix(out, image);
      out := out + [EndRow];
    }
    GrowPrefix(out, image);
  }

  /** A prefix grows by the next item of the sequence it is a prefix of. */
  lemma GrowPrefix(prefix: seq<Emit>, whole: seq<Emit>)
    requires |prefix| <= |whole| && prefix == whole[..|prefix|]
    ensures |prefix| < |whole| ==> prefix + [whole[|prefix|]] == whole[..|prefix| + 1]
    ensures |prefix| == |whole| ==> prefix == whole
  {
  }
}
