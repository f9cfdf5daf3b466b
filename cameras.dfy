/** The pinhole camera of src/camera.rs: the viewport geometry fixed by `new`, the ray through
    each pixel centre, the row-major rendering of the frame text and the file text. */
module Cameras {
  import opened RealFacts
  import opened Vectors
  import opened Rays
  import opened Shapes
  import opened Hittables
  import opened Shading
  import opened PpmText
  import opened Wrappers

  const MaxValue: Byte := 255
  const FocalLength: real := 1.0
  const ViewportHeight: real := 2.0

  // ---------------------------------------------------------------------------------------
  // Viewport geometry, as `new` computes it from the camera centre and the image size `w` by
  // `h` (as `f64`)

  function ViewportWidth(w: real, h: real): real
    requires h > 0.0
  {
    ViewportHeight * (w / h)
  }

  function ViewportU(w: real, h: real): Vec3
    requires h > 0.0
  {
    Vec3(ViewportWidth(w, h), 0.0, 0.0)
  }

  /** The viewport's vertical edge points down the image: rows go from top to bottom. */
  const ViewportV: Vec3 := Vec3(0.0, -ViewportHeight, 0.0)

  function PixelDeltaU(w: real, h: real): Vec3
    requires w > 0.0 && h > 0.0
  {
    Div(ViewportU(w, h), w)
  }

  function PixelDeltaV(h: real): Vec3
    requires h > 0.0
  {
    Div(ViewportV, h)
  }

  function ViewportUpperLeft(center: Vec3, w: real, h: real): Vec3
    requires h > 0.0
  {
    Sub(Sub(Sub(center, Vec3(0.0, 0.0, FocalLength)), Div(ViewportU(w, h), 2.0)), Div(ViewportV, 2.0))
  }

  /** The centre of the top-left pixel: half a pixel step in from the upper-left corner. */
  function Pixel00Loc(center: Vec3, w: real, h: real): Vec3
    requires w > 0.0 && h > 0.0
  {
    Add(ViewportUpperLeft(center, w, h), Scale(0.5, Add(PixelDeltaU(w, h), PixelDeltaV(h))))
  }

  /** `pixel00_loc + x * pixel_delta_u + y * pixel_delta_v` */
  function PixelCenter(center: Vec3, w: real, h: real, x: real, y: real): Vec3
    requires w > 0.0 && h > 0.0
  {
    Add(Add(Pixel00Loc(center, w, h), Scale(x, PixelDeltaU(w, h))), Scale(y, PixelDeltaV(h)))
  }

  /** The ray from the camera centre towards the centre of pixel `(x, y)`. */
  function PixelRay(center: Vec3, w: real, h: real, x: real, y: real): (r: Ray)
    requires w > 0.0 && h > 0.0
    ensures r.origin == center
    ensures At(r, 1.0) == PixelCenter(center, w, h, x, y)
  {
    var c := PixelCenter(center, w, h, x, y);
    RayReaches(center, c);
    Ray(center, Sub(c, center))
  }

  lemma RayReaches(o: Vec3, c: Vec3)
    ensures At(Ray(o, Sub(c, o)), 1.0) == c
  {
  }

  /** The steps between pixel centres, component by component. */
  lemma StepComponents(w: real, h: real)
    requires w > 0.0 && h > 0.0
    ensures PixelDeltaU(w, h) == Vec3(ViewportWidth(w, h) / w, 0.0, 0.0)
    ensures PixelDeltaV(h) == Vec3(0.0, -ViewportHeight / h, 0.0)
  {
    ZeroOver(w);
    ZeroOver(h);
  }

  /** The top-left pixel centre, relative to the camera centre. */
  lemma Pixel00Components(center: Vec3, w: real, h: real)
    requires w > 0.0 && h > 0.0
    ensures var vw := ViewportWidth(w, h);
      Pixel00Loc(center, w, h)
        == Vec3(center.x - vw / 2.0 + 0.5 * (vw / w), center.y + ViewportHeight / 2.0 + 0.5 * (-ViewportHeight / h), center.z - FocalLength)
  {
    StepComponents(w, h);
  }

  /** Pixel `(x, y)`'s centre lies on the viewport plane, one focal length in front of the
      camera, `x` horizontal steps right of and `y` vertical steps below the top-left centre. */
  lemma PixelCenterComponents(center: Vec3, w: real, h: real, x: real, y: real)
    requires w > 0.0 && h > 0.0
    ensures var p00 := Pixel00Loc(center, w, h);
      PixelCenter(center, w, h, x, y)
        == Vec3(p00.x + x * PixelDeltaU(w, h).x, p00.y + y * PixelDeltaV(h).y, center.z - FocalLength)
  {
    StepComponents(w, h);
    Pixel00Components(center, w, h);
    var p00 := Pixel00Loc(center, w, h);
    var du := PixelDeltaU(w, h);
    var dv := PixelDeltaV(h);
    var c := PixelCenter(center, w, h, x, y);
    assert c.x == p00.x + x * du.x + y * 0.0;
    assert c.y == p00.y + x * 0.0 + y * dv.y;
    assert c.z == p00.z + x * 0.0 + y * 0.0;
  }

  /** `w` steps of `pixel_delta_u` span the viewport's width, `h` steps of `pixel_delta_v` its
      height. */
  lemma PixelStepsSpanViewport(w: real, h: real)
    requires w > 0.0 && h > 0.0
    ensures Scale(w, PixelDeltaU(w, h)) == ViewportU(w, h)
    ensures Scale(h, PixelDeltaV(h)) == ViewportV
  {
    StepComponents(w, h);
    CancelFactor(w, ViewportWidth(w, h));
    CancelFactor(h, -ViewportHeight);
  }

  /** Along one axis: the centre of cell `i` of `n` equal cells spanning `[-len/2, len/2]` lies
      at fraction `(i + 1/2) / n` of the span, strictly inside it. */
  lemma {:induction false} CellCenter(len: real, n: real, i: real)
    requires len > 0.0 && 0.0 <= i && i + 1.0 <= n
    ensures var pos := -len / 2.0 + 0.5 * (len / n) + i * (len / n);
      && pos == len * ((i + 0.5) / n) - len / 2.0
      && -len / 2.0 < pos < len / 2.0
  {
    var step := len / n;
    var f := (i + 0.5) / n;
    DivisionByPositive(n, step, len);
    DivisionByPositive(n, f, i + 0.5);
    assert (i + 0.5) * step == len * f by {
      assert n * ((i + 0.5) * step) == n * (len * f);
      NonZeroCancel(n, (i + 0.5) * step, len * f);
    }
    PositiveFactor(n, f);
    PositiveFactor(n, 1.0 - f);
    PositiveProduct(len, f);
    PositiveProduct(len, 1.0 - f);
  }

  /** Every pixel centre lies strictly inside the viewport, at fraction `(x + 1/2) / w` across
      from its left edge and `(y + 1/2) / h` down from its top edge, one focal length in front of
      the camera. */
  lemma {:induction false} PixelCenterInsideViewport(center: Vec3, w: real, h: real, x: real, y: real)
    requires 0.0 <= x && x + 1.0 <= w && 0.0 <= y && y + 1.0 <= h
    ensures var offset := Sub(PixelCenter(center, w, h, x, y), center);
      var vw := ViewportWidth(w, h);
      && offset.z == -FocalLength
      && offset.x == vw * ((x + 0.5) / w) - vw / 2.0
      && -vw / 2.0 < offset.x < vw / 2.0
      && offset.y == ViewportHeight / 2.0 - ViewportHeight * ((y + 0.5) / h)
      && -ViewportHeight / 2.0 < offset.y < ViewportHeight / 2.0
  {
    StepComponents(w, h);
    Pixel00Components(center, w, h);
    PixelCenterComponents(center, w, h, x, y);
    var vw := ViewportWidth(w, h);
    DivisionByPositive(h, w / h, w);
    PositiveFactor(h, w / h);
    CellCenter(vw, w, x);
    CellCenter(ViewportHeight, h, y);
    NegatedStep(ViewportHeight, h, y);
  }

  /** The camera ray of every pixel has a direction of length at least one, so `colour` can
      normalise it. */
  lemma PixelRayDirectionNonZero(center: Vec3, w: real, h: real, x: real, y: real)
    requires w > 0.0 && h > 0.0
    ensures QuadA(PixelRay(center, w, h, x, y)) >= 1.0
  {
    PixelCenterComponents(center, w, h, x, y);
    var d := PixelRay(center, w, h, x, y).direction;
    assert d.z == -1.0;
    assert d.x * d.x >= 0.0 && d.y * d.y >= 0.0;
  }

  // ---------------------------------------------------------------------------------------
  // Pixel values

  /** Rust's `f64 as u8`: rounds toward zero and saturates at both ends. */
  function CastU8(v: real): (b: Byte)
    ensures v <= 0.0 ==> b == 0
    ensures v >= 255.0 ==> b == 255
    ensures 0.0 <= v < 255.0 ==> b as real <= v < b as real + 1.0
  {
    if v <= 0.0 then 0 else if v >= 255.0 then 255 else v.Floor
  }

  /** The ray `render` shades for pixel `(x, y)` of a `width` by `height` image seen from
      `center`. */
  function CameraRay(center: Vec3, width: nat, height: nat, x: nat, y: nat): (r: Ray)
    requires width > 0 && height > 0
    ensures r.origin == center
    ensures At(r, 1.0) == PixelCenter(center, width as real, height as real, x as real, y as real)
  {
    PixelRay(center, width as real, height as real, x as real, y as real)
  }

  /** What rendering needs of the scene: every pixel's ray can be shaded. */
  predicate RenderDefined(center: Vec3, width: nat, height: nat, objects: seq<Sphere>, sqrt: real -> real)
    requires width > 0 && height > 0
  {
    forall x: nat, y: nat :: x < width && y < height ==> ColourDefined(CameraRay(center, width, height, x, y), objects, sqrt)
  }

  /** The bytes written for pixel `(x, y)`: its colour scaled by 255 and cast to `u8`. The colour
      lies in the unit cube, so the cast never saturates below: each channel is the colour's
      component times 255, rounded down. */
  function PixelValue(center: Vec3, width: nat, height: nat, objects: seq<Sphere>, sqrt: real -> real, x: nat, y: nat): (p: Pixel)
    requires x < width && y < height && RenderDefined(center, width, height, objects, sqrt)
    ensures var c := Colour(CameraRay(center, width, height, x, y), objects, sqrt);
      ScaledFloor(p.r, c.x) && ScaledFloor(p.g, c.y) && ScaledFloor(p.b, c.z)
  {
    var colour := Colour(CameraRay(center, width, height, x, y), objects, sqrt);
    ColourInUnitCube(CameraRay(center, width, height, x, y), objects, sqrt);
    var c := Scale(255.0, colour);
    Pixel(CastU8(c.x), CastU8(c.y), CastU8(c.z))
  }

  /** `b` is the byte `as u8` gives for `255 * c` when `c` lies in `[0, 1]`. */
  predicate ScaledFloor(b: Byte, c: real) {
    if c == 1.0 then b == 255 else b as real <= 255.0 * c < b as real + 1.0
  }

  /** The first `count` pixels of row `y`: `(0, y) .. (count - 1, y)`, left to right. */
  function RowPixels(center: Vec3, width: nat, height: nat, objects: seq<Sphere>, sqrt: real -> real, y: nat, count: nat): (row: seq<Pixel>)
    requires width > 0 && y < height && count <= width && RenderDefined(center, width, height, objects, sqrt)
    ensures |row| == count
  {
    seq(count, x requires 0 <= x < count => PixelValue(center, width, height, objects, sqrt, x, y))
  }

  /** The first `rows` rows of the image, top row first: row `y` is the row `render`'s inner
      loop produces for `y`. */
  function Image(center: Vec3, width: nat, height: nat, objects: seq<Sphere>, sqrt: real -> real, rows: nat): (image: seq<seq<Pixel>>)
    requires width > 0 && height > 0 && rows <= height && RenderDefined(center, width, height, objects, sqrt)
    ensures |image| == rows
  {
    seq(rows, y requires 0 <= y < rows => RowPixels(center, width, height, objects, sqrt, y, width))
  }

  /** The pixels of the first `rows` rows in the order `render` produces them: `y` in the outer
      loop, `x` in the inner one. */
  function Pixels(center: Vec3, width: nat, height: nat, objects: seq<Sphere>, sqrt: real -> real, rows: nat): seq<Pixel>
    requires width > 0 && height > 0 && rows <= height && RenderDefined(center, width, height, objects, sqrt)
  {
    Flatten(Image(center, width, height, objects, sqrt, rows))
  }

  /** One more row of the image adds that row's pixels at the end. */
  lemma PixelsStep(center: Vec3, width: nat, height: nat, objects: seq<Sphere>, sqrt: real -> real, rows: nat)
    requires width > 0 && height > 0 && rows < height && RenderDefined(center, width, height, objects, sqrt)
    ensures Pixels(center, width, height, objects, sqrt, rows + 1)
         == Pixels(center, width, height, objects, sqrt, rows) + RowPixels(center, width, height, objects, sqrt, rows, width)
  {
    var image := Image(center, width, height, objects, sqrt, rows + 1);
    assert image[..rows] == Image(center, width, height, objects, sqrt, rows);
  }

  /** The whole image is `height` rows of `width` pixels; row `y` holds pixels `(x, y)` in order
      of `x`, so pixel `(x, y)` is number `y * width + x`: row-major with the top row first. */
  lemma PixelsRowMajor(center: Vec3, width: nat, height: nat, objects: seq<Sphere>, sqrt: real -> real, rows: nat, y: nat)
    requires width > 0 && height > 0 && rows <= height && RenderDefined(center, width, height, objects, sqrt)
    requires y < rows
    ensures |Pixels(center, width, height, objects, sqrt, rows)| == width * rows
    ensures Row(Pixels(center, width, height, objects, sqrt, rows), width, rows, y) == RowPixels(center, width, height, objects, sqrt, y, width)
  {
    FlattenRows(Image(center, width, height, objects, sqrt, rows), width);
  }

  // ---------------------------------------------------------------------------------------
  // The camera

  /** `DVec3::ZERO`, where the camera sits: the one vector of length zero. The constructor
      takes the centre from here so that it knows only its length, as `Valid()` states it. */
  method Origin() returns (o: Vec3)
    ensures LengthSquared(o) == 0.0
  {
    o := Zero;
  }

  class Camera {
    const aspectRatio: real
    const imageWidth: nat
    const imageHeight: nat
    const maxValue: Byte
    const center: Vec3
    const pixelDeltaU: Vec3
    const pixelDeltaV: Vec3
    const pixel00Loc: Vec3
    var frame: string

    /** The fields `new` fixes, as the viewport geometry determines them. The centre is the
        origin, stated by its zero length (the one vector of length zero, by `ZeroLength`):
        with the literal zero vector here, every proof that assumes `Valid()` runs out of
        resource. */
    ghost predicate Valid() {
      && imageWidth > 0 && imageHeight > 0
      && maxValue == MaxValue
      && LengthSquared(center) == 0.0
      && pixelDeltaU == PixelDeltaU(imageWidth as real, imageHeight as real)
      && pixelDeltaV == PixelDeltaV(imageHeight as real)
      && pixel00Loc == Pixel00Loc(center, imageWidth as real, imageHeight as real)
    }

    /** `Camera::new`, with the image height given rather than cast from `width / aspect_ratio`. */
    constructor (imageWidth: nat, aspectRatio: real, imageHeight: nat)
      requires imageWidth > 0 && imageHeight > 0
      ensures Valid()
      ensures this.imageWidth == imageWidth && this.aspectRatio == aspectRatio && this.imageHeight == imageHeight
      ensures maxValue == 255 && frame == ""
    {
      this.aspectRatio := aspectRatio;
      this.imageWidth := imageWidth;
      this.imageHeight := imageHeight;
      maxValue := MaxValue;
      var origin := Origin();
      center := origin;
      pixelDeltaU := PixelDeltaU(imageWidth as real, imageHeight as real);
      pixelDeltaV := PixelDeltaV(imageHeight as real);
      pixel00Loc := Pixel00Loc(origin, imageWidth as real, imageHeight as real);
      frame := "";
    }

    /** The body of `render`'s closure for pixel `(x, y)`: the ray through the pixel centre,
        its colour scaled by 255, each channel cast to a byte. */
    method ShadePixel(world: HittableList, sqrt: real -> real, x: nat, y: nat) returns (p: Pixel)
      requires Valid() && RenderDefined(center, imageWidth, imageHeight, world.objects, sqrt)
      requires x < imageWidth && y < imageHeight
      ensures p == PixelValue(center, imageWidth, imageHeight, world.objects, sqrt, x, y)
    {
      var pixelCenter := Add(Add(pixel00Loc, Scale(x as real, pixelDeltaU)), Scale(y as real, pixelDeltaV));
      var ray := Ray(center, Sub(pixelCenter, center));
      assert ray == CameraRay(center, imageWidth, imageHeight, x, y);
      var colour := Scale(255.0, Colour(ray, world.objects, sqrt));
      p := Pixel(CastU8(colour.x), CastU8(colour.y), CastU8(colour.z));
    }

    /** The inner loop of `render` for row `y`: pixels `(0, y) .. (width - 1, y)`. */
    method RenderRow(world: HittableList, sqrt: real -> real, y: nat) returns (row: seq<Pixel>)
      requires Valid() && RenderDefined(center, imageWidth, imageHeight, world.objects, sqrt)
      requires y < imageHeight
      ensures row == RowPixels(center, imageWidth, imageHeight, world.objects, sqrt, y, imageWidth)
    {
      row := [];
      for x := 0 to imageWidth
        invariant row == RowPixels(center, imageWidth, imageHeight, world.objects, sqrt, y, x)
      {
        var p := ShadePixel(world, sqrt, x, y);
        row := row + [p];
      }
    }

    /** The pixel stream of `render`: `(0..height) x (0..width)`, `y` outer and `x` inner. */
    method RenderPixels(world: HittableList, sqrt: real -> real) returns (pixels: seq<Pixel>)
      requires Valid() && RenderDefined(center, imageWidth, imageHeight, world.objects, sqrt)
      ensures pixels == Pixels(center, imageWidth, imageHeight, world.objects, sqrt, imageHeight)
    {
      pixels := [];
      for y := 0 to imageHeight
        invariant pixels == Pixels(center, imageWidth, imageHeight, world.objects, sqrt, y)
      {
        var row := RenderRow(world, sqrt, y);
        PixelsStep(center, imageWidth, imageHeight, world.objects, sqrt, y);
        pixels := pixels + row;
      }
    }

    /** `render`: shades every pixel, top row first and left to right within a row, and stores
        the frame text. */
    method Render(world: HittableList, sqrt: real -> real)
      requires Valid() && RenderDefined(center, imageWidth, imageHeight, world.objects, sqrt)
      modifies this
      ensures frame == FrameText(Pixels(center, imageWidth, imageHeight, world.objects, sqrt, imageHeight), imageWidth)
    {
      var pixels := RenderPixels(world, sqrt);
      frame := FrameText(pixels, imageWidth);
    }

    /** The text `render_to_file` writes: read back line by line it starts with the format tag,
        the image size and the largest channel value, and the frame follows. */
    function FileContents(): (text: string)
      reads this
      ensures var lines := Split(text, '\n');
        && |lines| >= 4
        && lines[0] == "P3"
        && ReadLine(lines[1]) == Some([imageWidth, imageHeight])
        && ReadLine(lines[2]) == Some([maxValue as nat])
        && lines[3..] == Split(frame + "\n", '\n')
    {
      HeaderReadsBack(imageWidth, imageHeight, maxValue, frame);
      FileText(imageWidth, imageHeight, maxValue, frame)
    }
  }

  /** After `render`, the file text reads back as the header and then, on line `3 + y`, the
      channel values of pixels `(0, y) .. (width - 1, y)` in order. */
  lemma {:induction false} RenderedFileReadsBack(center: Vec3, width: nat, height: nat, objects: seq<Sphere>, sqrt: real -> real, y: nat)
    requires width > 0 && height > 0 && RenderDefined(center, width, height, objects, sqrt)
    requires y < height
    ensures var lines := Split(FileText(width, height, 255, FrameText(Pixels(center, width, height, objects, sqrt, height), width)), '\n');
      && |lines| == height + 4
      && lines[0] == "P3"
      && ReadLine(lines[1]) == Some([width, height])
      && ReadLine(lines[2]) == Some([255])
      && ReadLine(lines[3 + y]) == Some(Channels(RowPixels(center, width, height, objects, sqrt, y, width)))
  {
    var pixels := Pixels(center, width, height, objects, sqrt, height);
    PixelsRowMajor(center, width, height, objects, sqrt, height, y);
    FileReadsBack(pixels, width, height);
  }
}
