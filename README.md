# rtiaw ray tracer, modelled in Dafny

A Dafny model of the core of `rtiaw`, a small "ray tracing in a weekend" renderer written in Rust.
It covers the geometric decision logic and the text of the image the tracer writes:

- rays and the point at a parameter (`Ray::at`);
- sphere intersection with its root preference (`Sphere::hit`);
- hit records and face orientation (`HitRecord::with_face_normal`);
- the scene list and its nearest-hit fold (`HittableList`);
- shading by normal and the sky gradient (`Ray::colour`);
- the Lambertian scatter rule;
- the random-vector helpers;
- the camera: its viewport geometry, the ray through every pixel centre, the row-major `render`
  and the plain-PPM (P3) text that `render_to_file` writes.

`f64` is modelled as `real`, and glam's `DVec3` as the datatype `Vectors.Vec3`. Square roots are
supplied values with their defining relation (`sq >= 0 && sq * sq == d`), not computed floats.
The half-open Rust range `start..end` is `HitRecords.Interval`. Its end is a `Bound`, which is
either finite or `f64::INFINITY`.

Each Rust source file becomes one or two modules. Some files are split to break the cycles between them, and a few support modules are added:

- `Vectors`, `RealFacts`, `Wrappers`: vectors, arithmetic facts and `Option`.
- `Rays`: src/ray.rs, `Ray` and `at`.
- `Materials`: the `Lambertian` value.
- `HitRecords`: the `HitRecord` and the range type.
- `Shapes`: src/shapes.rs.
- `Hittables`: the list in src/hittable.rs.
- `Scattering`: `Lambertian::scatter`.
- `Shading`: `Ray::colour`.
- `Helpers`: src/helpers.rs.
- `PpmText` and `Cameras`: src/camera.rs.

State that the Rust code changes in place is modelled as classes:

- `Hittables.HittableList` holds its objects as a `seq` that `Add` and `Clear` reassign.
- `Cameras.Camera` holds `frame`, which `Render` overwrites.

The list's `Hit` is a loop proved equal to the fold. `Render` is a pair of nested loops proved
equal to the row-major pixel sequence.

Beside the writers there is a small reader (`Split`, `ParseDecimal`, `ReadLine`). With it, the
layout is stated as a round trip: the file text, split at newlines and spaces, gives back the
header numbers and each row's channel values in order.

The repository's design notes describe a fuller tracer than the code implements. The model follows
the code:

- Ranges are half-open, `start <= t < end`, and `colour` queries from `0.0`, not from a small
  epsilon.
- `colour` does not recurse and has no depth. It shades a hit by its normal alone, and
  `scatter` is never called from it.
- The record a sphere returns carries no material (`None`). The sphere's own material is never
  attached to it.
- There is no anti-aliasing and no gamma correction. Each pixel is one ray, and its channel is
  `colour * 255` cast to `u8`.

## Model

| member | source | states |
|---|---|---|
| Rays.At | src/ray.rs:14-16 | the point minus the origin is `t` times the direction; at `t = 0` it is the origin |
| HitRecords.WithFaceNormal | src/hittable.rs:15-29 | front face exactly when `direction · outward < 0`; the stored normal is the outward normal on a front face and its negation otherwise, so it never points along the ray and keeps its length; `p` and `t` are copied and the material is `None` |
| Shapes.SurfaceRecord | src/shapes.rs:54-56 | the record of a hit at `t` holds the point `r.at(t)`, the parameter `t`, no material, and a normal opposing the ray |
| Shapes.Hit | src/shapes.rs:33-57 | a negative discriminant gives `None`; a reported `t` is the near or the far root, lies in the half-open range, and its record is the surface record at `t` with a normal opposing the ray |
| Shapes.SurfaceQuadratic | src/shapes.rs:34-39 | the point at `t` is on the sphere exactly when `a t² + 2 half_b t + c = 0` with `oc`, `a`, `half_b`, `c` as the source defines them |
| Shapes.QuadraticRoots | src/shapes.rs:39-48 | with `a > 0`, a negative discriminant leaves no zero; otherwise the zeros are exactly `(-half_b ∓ sqrt)/a`, the near root first |
| Shapes.SurfaceRoots | src/shapes.rs:34-52 | the ray meets the sphere exactly at the two roots, and nowhere when the discriminant is negative |
| Shapes.HitIsNearest | src/shapes.rs:33-57 | a hit is on the surface and no surface point in the range is nearer; `None` exactly when no surface point lies in the range |
| Shapes.HitSolvesQuadratic | src/shapes.rs:39-48 | the reported `t` solves `a t² + 2 half_b t + c = 0` |
| Shapes.HitRootPreference | src/shapes.rs:45-52 | the near root is taken whenever it is in range, the far one only when the near one is not, and a sphere wholly before `start` gives `None` |
| Shapes.HitNormalIsUnit | src/shapes.rs:54-56 | the stored normal of a hit has unit length |
| Shapes.UnitOutwardNormal | src/shapes.rs:55 | `(p - center) / radius` has unit length for a point on the surface |
| Shapes.HitNarrowed | src/shapes.rs:45-52 | shrinking the end of the range keeps the hit if its `t` is below the new end and drops it otherwise |
| Hittables.Step | src/hittable.rs:65-70 | one step of the fold either keeps the accumulator, or replaces it with the object's own hit over `start..acc.0` and narrows the end to that hit's `t`; the end never grows |
| Hittables.Fold | src/hittable.rs:63-72 | the fold never raises the searched end, keeps a consistent accumulator, and ends either with the record it started with or with one whose `t` lies in `start..acc.0` |
| Hittables.ListHit | src/hittable.rs:61-73 | the fold started from `(range.end, None)`: an empty list gives `None`, and a reported `t` lies in the range; `ListHitIsNearest` states the rest |
| Hittables.FoldNearest | src/hittable.rs:63-72 | the fold keeps its accumulator consistent, never raises the searched end, finds a record exactly when one was held or some object hits, and no object hits nearer than the result |
| Hittables.ListHitIsNearest | src/hittable.rs:61-73 | an empty list gives `None`; `Some` exactly when some object hits over the whole range; the result is one object's own hit, lies in the range, and is no farther than any object's hit |
| Hittables.ListHitIsNearestSurface | src/hittable.rs:61-73 | a reported `t` puts the ray on some sphere, no sphere is met at a smaller `t` in range, and `None` exactly when no sphere is met in range |
| Hittables.ListHitOrderIndependent | src/hittable.rs:61-73 | any rearrangement of the objects reports a hit exactly when the original does, at the same `t` |
| Hittables.HittableList.constructor | src/hittable.rs:41-43 | the new list is empty |
| Hittables.HittableList.Clear | src/hittable.rs:45-50 | afterwards the list is empty |
| Hittables.HittableList.Add | src/hittable.rs:52-57 | the object is appended at the end and earlier objects are unchanged |
| Hittables.HittableList.Hit | src/hittable.rs:61-73 | the loop that narrows the end of the range returns what the fold returns, with `t` in range |
| Scattering.Scatter | src/materials.rs:21-27 | always `Some`; the ray leaves the hit point along `normal + unit`, or along the normal when that sum is within `1e-8` of zero in every component; the attenuation is the albedo |
| Scattering.ScatterNeverDegenerate | src/materials.rs:22-25 | a normal that is not near zero never gives a near-zero scatter direction |
| Scattering.ScatterIgnoresIncomingRay | src/materials.rs:21-27 | the incoming ray does not affect the result |
| Shading.UnitYInRange | src/ray.rs:22-23 | the normalised `y` lies in `[-1, 1]` |
| Shading.BackgroundEndpoints | src/ray.rs:22-25 | the sky is white at `unit_y = -1` and `(0.5, 0.7, 1.0)` at `unit_y = 1` |
| Shading.BackgroundBetweenEndpoints | src/ray.rs:23-25 | the blue channel is always 1, and for `unit_y` in `[-1, 1]` each other channel lies between its two end values |
| Shading.NormalShadeInUnitCube | src/ray.rs:20 | a normal with components in `[-1, 1]` shades to channels in `[0, 1]` |
| Shading.HitColourInUnitCube | src/ray.rs:19-20 | the colour of a hit over `[0, ∞)` has every channel in `[0, 1]` |
| Shading.ColourInUnitCube | src/ray.rs:18-26 | every colour `colour` returns has every channel in `[0, 1]` |
| Helpers.Affine | src/helpers.rs:15-17 | a draw in `[0, 1)` maps into `[start, start + width)` |
| Helpers.Random | src/helpers.rs:13-19 | with `start < end` and draws in `[0, 1)`, every component lies in `[start, end)` |
| Helpers.RandomRecoversDraws | src/helpers.rs:13-19 | each component gives back its own draw, so the first three draws are used in x, y, z order |
| Helpers.FirstInUnitSphere | src/helpers.rs:21-30 | an accepted point has squared length below 1 |
| Helpers.FirstInUnitSphereIsFirst | src/helpers.rs:23-29 | the accepted point is the first candidate triple that passes, every earlier one having failed; `None` only when every candidate failed |
| Helpers.FirstInUnitSphereBounds | src/helpers.rs:23-28 | with draws in `[0, 1)`, an accepted point has every component in `[-1, 1)` |
| Helpers.RandomInUnitSphere | src/helpers.rs:21-30 | the rejection loop returns the first accepted candidate, of squared length below 1 |
| Helpers.OnHemisphere | src/helpers.rs:36-41 | the result is `v` when `v · n > 0` and `-v` otherwise, so it never points against `n` and keeps `v`'s length |
| Vectors.ZeroLength | src/camera.rs:49 | only the zero vector has length zero, so the camera centre is `DVec3::ZERO` |
| PpmText.DigitChar | src/camera.rs:94-97 | a digit value becomes the character with that value above `'0'` |
| PpmText.Decimal | src/camera.rs:94-97 | the decimal text of a number is non-empty, all digits, and has no leading zero unless it is the single digit `0` |
| PpmText.DecimalRoundTrip | src/camera.rs:94-97 | reading a number's decimal text gives the number back |
| PpmText.PixelText | src/camera.rs:94-97 | a pixel's text splits at spaces into exactly its three channels' decimal texts and reads back as the three channel values |
| PpmText.FrameText | src/camera.rs:99-102 | a frame of at most one row is that row's text, with no newline; `FrameLines` states the layout of a frame of many rows |
| PpmText.FileText | src/camera.rs:108-114 | the file text starts with `P3` and a newline and ends with a newline; `HeaderReadsBack` and `FileReadsBack` state the rest |
| PpmText.SplitJoin | src/camera.rs:101-102 | splitting at the separator undoes the join when no part contains the separator |
| PpmText.ChunksOfRows | src/camera.rs:99-100 | `chunks(width)` of `height` full rows gives exactly those rows, in order |
| PpmText.FlattenRows | src/camera.rs:69-70 | laying rows of `width` end to end and cutting at every `width` gives the rows back |
| PpmText.RowTextIsTokens | src/camera.rs:94-101 | a row's text is its pixels' channel numbers joined by single spaces, three per pixel |
| PpmText.RowReadsBack | src/camera.rs:94-101 | a row's text holds no newline and reads back as its pixels' channel values in order |
| PpmText.RowLines | src/camera.rs:101-102 | rows joined by newlines, plus the final newline, split back into the rows and one empty piece |
| PpmText.FrameLines | src/camera.rs:99-102 | the frame has exactly `height` lines, line `k` reads back as row `k`'s channels, and there is no trailing newline |
| PpmText.HeaderReadsBack | src/camera.rs:108-114 | the file starts with the lines `P3`, the width and height, and the largest channel value, then the frame and its final newline |
| PpmText.FileReadsBack | src/camera.rs:99-114 | the file has `height + 4` pieces: the header, each row's channels on line `3 + k`, and an empty piece after the final newline |
| Cameras.CameraRay | src/camera.rs:73-79 | the ray shaded for pixel `(x, y)` starts at the camera centre and reaches that pixel's centre at `t = 1` |
| Cameras.PixelValue | src/camera.rs:81-96 | each channel of pixel `(x, y)` is its colour's component times 255, rounded down, and 255 for a component of 1 |
| Cameras.PixelRay | src/camera.rs:73-79 | the ray starts at the camera centre and reaches the pixel centre at `t = 1` |
| Cameras.Pixel00Components | src/camera.rs:51-54 | the top-left pixel centre is half a step in from the viewport's upper-left corner, one focal length ahead |
| Cameras.PixelCenterComponents | src/camera.rs:73-75 | pixel `(x, y)`'s centre is `x` steps right of and `y` steps below the top-left centre, on the viewport plane |
| Cameras.PixelStepsSpanViewport | src/camera.rs:43-47 | `width` horizontal steps span the viewport's width and `height` vertical steps its height, downwards |
| Cameras.PixelCenterInsideViewport | src/camera.rs:40-54 | every pixel centre lies strictly inside the viewport, at fraction `(x + ½)/w` across and `(y + ½)/h` down |
| Cameras.PixelRayDirectionNonZero | src/camera.rs:77-79 | every pixel ray has a direction of squared length at least 1, so it can be normalised |
| Cameras.CastU8 | src/camera.rs:94-96 | `as u8` gives 0 at or below 0, 255 at or above 255, and rounds toward zero in between |
| Cameras.PixelsStep | src/camera.rs:69-70 | one more image row appends that row's pixels at the end |
| Cameras.PixelsRowMajor | src/camera.rs:69-70 | the pixel stream has `width * rows` pixels, and its row `y` is pixels `(0, y) .. (width - 1, y)` in order |
| Cameras.Origin | src/camera.rs:49 | the camera centre is the vector of length zero |
| Cameras.Camera.constructor | src/camera.rs:35-67 | the fields hold the viewport geometry of the given size, `max_value` is 255, and `frame` is empty |
| Cameras.Camera.ShadePixel | src/camera.rs:72-97 | the closure body gives the pixel value of pixel `(x, y)` |
| Cameras.Camera.RenderRow | src/camera.rs:69-98 | the inner loop gives the pixels of row `y`, left to right |
| Cameras.Camera.RenderPixels | src/camera.rs:69-98 | the nested loops give the row-major pixel stream, top row first |
| Cameras.Camera.Render | src/camera.rs:68-103 | `frame` becomes the frame text of the row-major pixel stream |
| Cameras.Camera.FileContents | src/camera.rs:105-114 | the file text reads back as `P3`, the image size, the largest channel value, then the frame |
| Cameras.RenderedFileReadsBack | src/camera.rs:68-114 | after `render`, the file has `height + 4` pieces, the header reads back, and line `3 + y` reads back as the channels of pixels `(0, y) .. (width - 1, y)` |

## Left out

- Window and drawing: raylib, the event loop in src/main.rs and `draw_pixel` (src/camera.rs:83-92). These are UI output.
- The file write: `std::fs::write` and `io::Result` (src/camera.rs:106-118). Only the text that would be written is modelled.
- src/main.rs: scene setup and the process entry point.
- IEEE-754 behaviour: rounding, NaN and infinities in arithmetic. Reals are exact. A division by zero becomes a precondition: `a > 0` for the ray direction and a non-zero radius.
- `sqrt`, `normalize` and `powi` are not computed. A square root is a supplied value or function that is exact where it is used, and `normalize` is division by that length.
- `random_unit_vector` (src/helpers.rs:32-34) is `normalize` applied to `random_in_unit_sphere`. `Helpers.OnHemisphere` and `Scattering.Scatter` take the unit vector as a parameter.
- The `fastrand` generator is a supplied sequence of draws. The rejection loop's termination is only probabilistic, so `Helpers.RandomInUnitSphere` returns `None` when the draws run out.
- `Box::leak` and `Box::from_raw` (src/hittable.rs:47-56, src/shapes.rs:21) concern memory ownership. `Hittables.HittableList.Clear` only empties the list.
- Hittables.HittableList.Clear: does not model the output of the `Drop` of `Sphere` (src/shapes.rs:26-30). That prints "Sphere dropped." to standard output once for each object that `clear` releases (src/hittable.rs:47-49).
- Objects of `HittableList` are spheres, the only shape in the code. A list nested in a list is not modelled.
- Cameras.Camera.constructor: takes the image height as a parameter instead of computing `(image_width / aspect_ratio) as u32` (src/camera.rs:38). It requires both sizes to be positive, where the source would divide by a zero height.
- Cameras.Camera.constructor: states the camera centre by its zero length (`Vectors.ZeroLength` makes that the zero vector).
- Cameras.CastU8: does not model NaN, which `as u8` maps to 0.
- Shading.Colour: takes the objects the list holds rather than the list object, and has no contract of its own. Its properties are stated by `Shading.ColourInUnitCube` and the lemmas around it.
- Cameras.Camera.Render: models the iterator chain (`cartesian_product`, `map`, `chunks`, `join`) as nested loops over the pixels, then the frame text of the resulting sequence.
- Depth-bounded recursive colour, multi-sample averaging and gamma correction are absent from the code, so they are absent from the model.
