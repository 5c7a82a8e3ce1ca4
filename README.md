# Object detection frame pipeline: NV21 packing and detection decoding

This project models the two pieces of sequential logic in the Android
object-detection app's `MainActivity`: the packing of a camera frame's YUV
planes into one NV21-ordered byte array (`imageProxyToBitmap`), and the loop
that turns the SSD detector's output tensors into the rectangles and size
labels drawn on the frame (`getPredictions`). Both are modelled imperatively,
as the source runs them, and proved against specification functions whose
properties are proved as lemmas.

- `nv21.dfy`, module `Nv21`: `PackNv21` allocates an `array<bv8>` of length
  `ySize + uSize + vSize` and fills it with three bulk copies (`BulkGet`, the
  `ByteBuffer.get(dst, offset, length)` calls) at offsets `0`, `ySize` and
  `ySize + vSize`: Y, then V, then U, although U is plane 1 and V is plane 2.
  Its postcondition ties the array to `Layout(y, u, v) = y + v + u`. The new
  array's initial contents are not assumed (the source's `ByteArray` is
  zero-filled), so that postcondition also says every byte is written. The
  lemmas give a per-byte reference (`Origin`: which plane and which position
  each buffer byte comes from) and prove that the three copies tile the buffer:
  each plane byte lands at exactly one position and each position receives
  exactly one plane byte.
- `predictions.dfy`, module `Predictions`: `GetPredictions` walks `scores` in
  index order. For each score strictly above `0.5` it reads the four location
  values of that detection, stored top, left, bottom, right. It reads them in
  the source's order: left at `4i+1`, top at `4i`, right at `4i+3`, bottom at
  `4i+2`. It scales them by the raster's width and height, records the
  rectangle and its size label (`objWidth = right - left`,
  `objHeight = bottom - top`, drawn at `(left, top - 10)`), and then switches
  the paint to FILL. It is proved equal to the fold `Decode`. The lemmas
  describe `Decode` without the loop: one box per kept index, in ascending
  order, with the exact scaled coordinates and no clamping; the rule for when it
  throws; and several concrete cases.

Numbers: the source's `Float` values are modelled as `real`, so the scaled
coordinates are exact products, with no rounding. The raster width and height
are Kotlin `Int`s, converted to `real` as the source converts them to `Float`.

The model follows the code in four places where a reader might expect other behaviour:

- Outline rectangles for every box would need the paint kept at STROKE. The
  code sets the shared paint to `Paint.Style.FILL` while drawing the first
  label (MainActivity.kt:161) and never sets it back. So in one frame the first
  rectangle is stroked and every later one is filled. The model records each
  rectangle's style (`RectStyle`).
- A buffer sized `width*height*3/2`, with inconsistent or empty planes
  rejected, would need a size check. The code sizes the buffer as the sum of
  the three planes' remaining byte counts and checks nothing. `PackNv21`
  accepts any three planes, including empty ones.
- Four `locations` values per score are never checked. A kept detection whose
  locations are missing makes the array read throw. The model returns
  `Err(IndexOutOfBounds(index, length))` for the first read that fails.
  `WellShapedOutputsDecode` proves that this cannot happen when
  `|locations| >= 4 * |scores|`.
- A class id per box would need the classes tensor. The code never reads it,
  so boxes carry none.

## Model

| member | source | states |
|---|---|---|
| `Nv21.PackNv21` | app/src/main/java/com/programminghut/object_detection/MainActivity.kt:104-116 | returns a new array of length `ySize + uSize + vSize` whose contents are exactly Y, then V, then U; no byte is left as allocated |
| `Nv21.BulkGet` | app/src/main/java/com/programminghut/object_detection/MainActivity.kt:114-116 | a bulk `get` writes the plane's bytes, in order, at `offset .. offset + size` of the array and leaves every other byte unchanged |
| `Nv21.Offset` | app/src/main/java/com/programminghut/object_detection/MainActivity.kt:114-116 | the copy offsets of Y, V and U are `0`, `ySize` and `ySize + vSize`, and each plane's copy ends inside the buffer |
| `Nv21.Origin` | app/src/main/java/com/programminghut/object_detection/MainActivity.kt:114-116 | each buffer position comes from a position inside the bounds of one plane |
| `Nv21.LayoutByteOrigin` | app/src/main/java/com/programminghut/object_detection/MainActivity.kt:112-116 | the packed buffer has the summed length, and each of its bytes equals the plane byte that `Origin` names |
| `Nv21.CopiesTileBuffer` | app/src/main/java/com/programminghut/object_detection/MainActivity.kt:114-116 | the copy offsets `0`, `ySize`, `ySize + vSize` map plane positions one-to-one onto buffer positions and back: every byte is written exactly once |
| `Nv21.LayoutSegments` | app/src/main/java/com/programminghut/object_detection/MainActivity.kt:112-116 | bytes `[0, ySize)` are the Y plane, `[ySize, ySize + vSize)` the V plane and `[ySize + vSize, total)` the U plane |
| `Nv21.LayoutOfSegments` | app/src/main/java/com/programminghut/object_detection/MainActivity.kt:112-116 | any buffer of the summed length is the packing of its own three segments, so the packing loses nothing |
| `Predictions.GetPredictions` | app/src/main/java/com/programminghut/object_detection/MainActivity.kt:143-165 | the loop's boxes, or the out-of-bounds read that ends it, are exactly `Decode` of the detector outputs and the raster size |
| `Predictions.Kept` | app/src/main/java/com/programminghut/object_detection/MainActivity.kt:147-148 | the kept indices, the ones drawn, are below `n` and strictly ascending, so boxes come out in index order |
| `Predictions.KeptExactlyAboveThreshold` | app/src/main/java/com/programminghut/object_detection/MainActivity.kt:147-148 | an index is kept exactly when its score is strictly above 0.5 |
| `Predictions.DecodePrefix` | app/src/main/java/com/programminghut/object_detection/MainActivity.kt:147-165 | after `n` indices the loop has drawn at most `n` boxes, or has thrown at a read whose index is at least the length of `locations` |
| `Predictions.FirstBadRead` | app/src/main/java/com/programminghut/object_detection/MainActivity.kt:149-153 | the four reads of a detection, in the source's order `4i+1`, `4i`, `4i+3`, `4i+2` (`ReadOrder`), all fit exactly when the result is `None`; otherwise the result is the first read in that order that is out of bounds, every earlier read fitting; as corollaries it is `4i + 1` exactly when `4i + 1 >= length`, and `4i + 3` otherwise |
| `Predictions.FaultPersists` | app/src/main/java/com/programminghut/object_detection/MainActivity.kt:147-153 | once a read has thrown, no later index changes the outcome |
| `Predictions.DecodePrefixOutcome` | app/src/main/java/com/programminghut/object_detection/MainActivity.kt:147-153 | after `n` indices the loop has not thrown exactly when every kept index below `n` can read its four locations; if it has thrown, the fault is at the failing read of the smallest such index |
| `Predictions.DecodePrefixBoxes` | app/src/main/java/com/programminghut/object_detection/MainActivity.kt:147-162 | after `n` indices without a fault, there is one box per kept index, in order, and the `j`-th is the scaled box of the `j`-th kept index drawn with the `j`-th rectangle's style |
| `Predictions.DecodeDrawsKept` | app/src/main/java/com/programminghut/object_detection/MainActivity.kt:139-163 | over all scores: success exactly when every kept detection's locations fit; then box `j` has `left = loc[4i+1]*width`, `top = loc[4i]*height`, `right = loc[4i+3]*width`, `bottom = loc[4i+2]*height` for the `j`-th kept `i`, the size `right - left` by `bottom - top`, its label at `(left, top - 10)`, and the paint's initial STROKE (:139) only for `j = 0`, FILL (set at :161 and never reset) for every later box |
| `Predictions.WellShapedOutputsDecode` | app/src/main/java/com/programminghut/object_detection/MainActivity.kt:149-153 | when `locations` holds four values per score, decoding never throws |
| `Predictions.DecodeFault` | app/src/main/java/com/programminghut/object_detection/MainActivity.kt:149-153 | a failed decoding names the smallest kept index `i` whose locations do not fit, at read `4i + 1` when that read already fails and at `4i + 3` otherwise |
| `Predictions.DetectionCountIgnored` | app/src/main/java/com/programminghut/object_detection/MainActivity.kt:133 | the `numberOfDetections` output does not affect the boxes |
| `Predictions.ThresholdIsStrict` | app/src/main/java/com/programminghut/object_detection/MainActivity.kt:148 | a lone score of exactly 0.5 draws nothing, whatever its locations and the raster size (the general rule is `KeptExactlyAboveThreshold` with `DecodeDrawsKept`) |
| `Predictions.ThreeDetectionScenario` | app/src/main/java/com/programminghut/object_detection/MainActivity.kt:147-162 | scores `[0.9, 0.3, 0.6]` at 640 x 480 draw indices 0 and 2 only; box 0 is `left 128, top 48, right 384, bottom 240`, stroked, and box 2 is filled |
| `Predictions.BoxesAreNotClamped` | app/src/main/java/com/programminghut/object_detection/MainActivity.kt:150-160 | a box with its right edge left of its left edge and its bottom outside the raster is drawn as is, with a negative width |
| `Predictions.ShortLocationsThrowAtRight` | app/src/main/java/com/programminghut/object_detection/MainActivity.kt:150-153 | with two location values for one kept score, the read of `right` at index 3 throws before `bottom` is read |

## Left out

- Camera permission, CameraX provider setup, lifecycle binding and teardown (`onCreate`, `startCamera`, `onRequestPermissionsResult`, `onDestroy`): Android framework I/O.
- The keep-only-latest backpressure strategy and the single-thread executor: the behaviour belongs to CameraX and `Executors`, and this file holds no logic for it.
- `processImageProxy` (conversion, prediction, then `imageProxy.close()`): the sequencing of library calls is not modelled, nor what happens to the frame when decoding throws.
- YUV to JPEG compression and JPEG decoding (`YuvImage.compressToJpeg`, `BitmapFactory.decodeByteArray`): a lossy round trip through library code.
- The 300 x 300 bilinear resize and the detector call (`ImageProcessor`, `model.process`): opaque library calls. Their outputs are the inputs of `GetPredictions`.
- Drawing itself, the `"W: %.2f, H: %.2f"` text formatting, the text size of 40 and `runOnUiThread`: the model records each rectangle, its paint style, the two sizes and the label position instead.
- Plane strides and pixel strides: a plane is modelled as the bytes its buffer has remaining. The advance of each buffer's position by `get` is not modelled.
- Kotlin `Int` arithmetic: `index * 4` (MainActivity.kt:149) and `ySize + uSize + vSize` (MainActivity.kt:112) are 32-bit, while the model computes them on unbounded integers. They cannot wrap at real tensor or plane sizes.
- `Nv21.PackNv21`: does not model the zero fill of a new `ByteArray`, because every byte is overwritten anyway.
- `Predictions.GetPredictions`: uses exact `real` arithmetic, so it does not model IEEE `Float` rounding, NaN or infinities in the scores and coordinates. Under IEEE rules a NaN score is never above 0.5, so it is skipped, while a NaN or infinite coordinate would be drawn.
