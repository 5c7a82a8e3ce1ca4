/** Decoding of the detector's output tensors into the boxes drawn on the
    frame, as the `scores.forEachIndexed` loop of `getPredictions` does.

    Scores, locations and the coordinates computed from them are Kotlin
    `Float`s; the model uses `real` for them, so every equality below is exact.
    The canvas is replaced by the sequence of boxes drawn on it, in drawing
    order, each with the paint style the rectangle was drawn with and the size
    label drawn beside it. */
module Predictions {

  /** A score must be strictly above this value for its box to be drawn. */
  const Threshold: real := 0.5

  /** How far above the box's top edge the size label's baseline is drawn. */
  const LabelRise: real := 10.0

  /** The three output tensors of the detector that the loop sees:
      `locations` holds four values per detection in the order top, left,
      bottom, right, each a fraction of the frame's height or width. */
  datatype DetectionSet = DetectionSet(
    locations: seq<real>,
    scores: seq<real>,
    numberOfDetections: seq<real>)

  /** `Paint.Style`: the paint starts as STROKE and the loop sets it to FILL. */
  datatype PaintStyle = Stroke | Fill

  /** The text drawn for a box (`"W: %.2f, H: %.2f"`): the two sizes it
      formats and the point it is drawn at. */
  datatype SizeLabel = SizeLabel(objWidth: real, objHeight: real, x: real, y: real)

  /** One rectangle drawn on the canvas, in pixels, and its label. */
  datatype Box = Box(
    left: real, top: real, right: real, bottom: real,
    style: PaintStyle,
    text: SizeLabel)

  /** An array read the JVM refuses: the index and the array's length. */
  datatype Fault = IndexOutOfBounds(index: int, length: nat)

  datatype Result<T> = Ok(value: T) | Err(fault: Fault)

  datatype Option<T> = None | Some(value: T)

  /** The ascending list of indices below `n` whose score is above the
      threshold: the detections the loop draws, in the order it draws them. */
  function Kept(scores: seq<real>, n: nat): (k: seq<nat>)
    requires n <= |scores|
    ensures forall j :: 0 <= j < |k| ==> k[j] < n
    ensures forall a, b :: 0 <= a < b < |k| ==> k[a] < k[b]
    decreases n
  {
    if n == 0 then []
    else Kept(scores, n - 1) + (if scores[n - 1] > Threshold then [n - 1] else [])
  }

  /** An index below `n` is kept exactly when its score is strictly above the
      threshold. */
  lemma {:induction false} KeptExactlyAboveThreshold(scores: seq<real>, n: nat, i: nat)
    requires n <= |scores|
    requires i < n
    ensures i in Kept(scores, n) <==> scores[i] > Threshold
    decreases n
  {
    var k0 := Kept(scores, n - 1);
    if i < n - 1 {
      KeptExactlyAboveThreshold(scores, n - 1, i);
      assert i != n - 1;
    } else {
      assert i !in k0;
    }
  }

  /** The style of the `ordinal`-th rectangle drawn in one call: the first is
      drawn with the fresh paint's STROKE; drawing its label sets the shared
      paint to FILL, which nothing sets back. */
  function RectStyle(ordinal: nat): (s: PaintStyle)
  {
    if ordinal == 0 then Stroke else Fill
  }

  /** The `locations` indices detection `i` reads, in the order the source
      reads them: left, top, right, bottom. */
  function ReadOrder(i: nat): (order: seq<nat>)
  {
    [4 * i + 1, 4 * i, 4 * i + 3, 4 * i + 2]
  }

  /** The first of the four reads of detection `i` (in `ReadOrder`) that falls
      outside `locations`, or `None` when all four fit. The read at `4i` fits
      whenever the one at `4i + 1` does, and so does the read at `4i + 2`
      whenever the one at `4i + 3` does, so only the checks of `4i + 1` and
      `4i + 3` are needed. */
  function FirstBadRead(i: nat, length: nat): (r: Option<nat>)
    ensures r.None? <==> forall p :: 0 <= p < 4 ==> ReadOrder(i)[p] < length
    ensures r.Some? ==> exists p :: (0 <= p < 4 && r.value == ReadOrder(i)[p] && length <= r.value &&
      (forall q :: 0 <= q < p ==> ReadOrder(i)[q] < length))
    ensures r.None? <==> 4 * i + 3 < length
    ensures r.Some? ==> length <= r.value && r.value in {4 * i + 1, 4 * i + 3}
    ensures r.Some? ==> (r.value == 4 * i + 1 <==> 4 * i + 1 >= length)
  {
    assert ReadOrder(i)[0] == 4 * i + 1 && ReadOrder(i)[2] == 4 * i + 3;
    if 4 * i + 1 >= length then Some(4 * i + 1)
    else if 4 * i + 3 >= length then Some(4 * i + 3)
    else None
  }

  /** The box drawn for detection `i`, scaled by the raster's width and
      height: the label's sizes are the normalized extents scaled the same way,
      and the label sits `LabelRise` above the box's top-left corner. */
  function BoxAt(locations: seq<real>, i: nat, width: int, height: int, style: PaintStyle): (b: Box)
    requires 4 * i + 3 < |locations|
  {
    var left := locations[4 * i + 1] * width as real;
    var top := locations[4 * i] * height as real;
    var right := locations[4 * i + 3] * width as real;
    var bottom := locations[4 * i + 2] * height as real;
    Box(left, top, right, bottom, style, SizeLabel(right - left, bottom - top, left, top - LabelRise))
  }

  /** What the loop has produced after visiting indices `0 .. n - 1`: the
      boxes drawn so far, or the read that threw. */
  function DecodePrefix(det: DetectionSet, width: int, height: int, n: nat): (r: Result<seq<Box>>)
    requires n <= |det.scores|
    ensures r.Ok? ==> |r.value| <= n
    ensures r.Err? ==> r.fault.length == |det.locations| && r.fault.index >= |det.locations|
    decreases n
  {
    if n == 0 then Ok([])
    else
      match DecodePrefix(det, width, height, n - 1)
      case Err(f) => Err(f)
      case Ok(boxes) =>
        if !(det.scores[n - 1] > Threshold) then Ok(boxes)
        else
          match FirstBadRead(n - 1, |det.locations|)
          case Some(index) => Err(IndexOutOfBounds(index, |det.locations|))
          case None => Ok(boxes + [BoxAt(det.locations, n - 1, width, height, RectStyle(|boxes|))])
  }

  /** The whole loop, over every entry of `scores`. */
  function Decode(det: DetectionSet, width: int, height: int): (r: Result<seq<Box>>)
  {
    DecodePrefix(det, width, height, |det.scores|)
  }

  /** True when every index below `n` whose score is above the threshold can
      read its four locations. */
  predicate KeptInBounds(det: DetectionSet, n: nat)
    requires n <= |det.scores|
  {
    forall i :: 0 <= i < n && det.scores[i] > Threshold ==> 4 * i + 3 < |det.locations|
  }

  /** Lines 143-165 as a loop: for each index whose score is above the
      threshold, read the four locations, scale them by the raster size, draw
      the rectangle and its size label, then switch the paint to FILL. A read
      past the end of `locations` throws in the source; here it ends the loop
      with that read's index. */
  method GetPredictions(det: DetectionSet, width: int, height: int) returns (r: Result<seq<Box>>)
    ensures r == Decode(det, width, height)
  {
    var locations, scores := det.locations, det.scores;
    var boxes: seq<Box> := [];
    var style := Stroke;
    var index := 0;
    while index < |scores|
      invariant 0 <= index <= |scores|
      invariant DecodePrefix(det, width, height, index) == Ok(boxes)
      invariant style == RectStyle(|boxes|)
    {
      var score := scores[index];
      if score > Threshold {
        var locIndex := index * 4;
        if locIndex + 1 >= |locations| {
          FaultPersists(det, width, height, index + 1, |scores|);
          return Err(IndexOutOfBounds(locIndex + 1, |locations|));
        }
        var left := locations[locIndex + 1] * width as real;
        var top := locations[locIndex] * height as real;
        if locIndex + 3 >= |locations| {
          FaultPersists(det, width, height, index + 1, |scores|);
          return Err(IndexOutOfBounds(locIndex + 3, |locations|));
        }
        var right := locations[locIndex + 3] * width as real;
        var bottom := locations[locIndex + 2] * height as real;
        var objWidth := right - left;
        var objHeight := bottom - top;
        assert Box(left, top, right, bottom, style, SizeLabel(objWidth, objHeight, left, top - LabelRise))
          == BoxAt(locations, index, width, height, style);
        boxes := boxes + [Box(left, top, right, bottom, style, SizeLabel(objWidth, objHeight, left, top - LabelRise))];
        style := Fill;
      }
      index := index + 1;
    }
    return Ok(boxes);
  }

  /** Once a read has thrown, visiting further indices changes nothing. */
  lemma {:induction false} FaultPersists(det: DetectionSet, width: int, height: int, n: nat, m: nat)
    requires n <= m <= |det.scores|
    requires DecodePrefix(det, width, height, n).Err?
    ensures DecodePrefix(det, width, height, m) == DecodePrefix(det, width, height, n)
    decreases m - n
  {
    if n < m {
      FaultPersists(det, width, height, n, m - 1);
    }
  }

  /** Whether the loop throws within its first `n` indices, and where: it
      throws exactly when some index below `n` with a score above the
      threshold cannot read its four locations, and then at the first failing
      read of the smallest such index. */
  lemma {:induction false} DecodePrefixOutcome(det: DetectionSet, width: int, height: int, n: nat)
    requires n <= |det.scores|
    ensures DecodePrefix(det, width, height, n).Ok? <==> KeptInBounds(det, n)
    ensures DecodePrefix(det, width, height, n).Err? ==>
      exists i :: 0 <= i < n && det.scores[i] > Threshold && KeptInBounds(det, i) &&
        FirstBadRead(i, |det.locations|).Some? &&
        DecodePrefix(det, width, height, n).fault ==
          IndexOutOfBounds(FirstBadRead(i, |det.locations|).value, |det.locations|)
    decreases n
  {
    if n > 0 {
      DecodePrefixOutcome(det, width, height, n - 1);
      if DecodePrefix(det, width, height, n - 1).Ok? && det.scores[n - 1] > Threshold
        && FirstBadRead(n - 1, |det.locations|).Some?
      {
        assert !KeptInBounds(det, n) by {
          assert det.scores[n - 1] > Threshold && !(4 * (n - 1) + 3 < |det.locations|);
        }
      }
    }
  }

  /** The boxes the loop has drawn after `n` indices, when no read has thrown,
      described without the loop: its `j`-th box is the box of the `j`-th kept
      index, scaled as lines 150-153 say, sized as lines 159-160 say and drawn
      with the `j`-th rectangle's style. */
  lemma {:induction false} DecodePrefixBoxes(det: DetectionSet, width: int, height: int, n: nat)
    requires n <= |det.scores|
    requires DecodePrefix(det, width, height, n).Ok?
    ensures var k, boxes := Kept(det.scores, n), DecodePrefix(det, width, height, n).value;
      |boxes| == |k| &&
      forall j :: 0 <= j < |k| ==>
        4 * k[j] + 3 < |det.locations| &&
        boxes[j] == BoxAt(det.locations, k[j], width, height, RectStyle(j))
    decreases n
  {
    if n > 0 {
      assert DecodePrefix(det, width, height, n - 1).Ok?;
      DecodePrefixBoxes(det, width, height, n - 1);
      var k0, boxes0 := Kept(det.scores, n - 1), DecodePrefix(det, width, height, n - 1).value;
      var k, boxes := Kept(det.scores, n), DecodePrefix(det, width, height, n).value;
      if det.scores[n - 1] > Threshold {
        assert FirstBadRead(n - 1, |det.locations|).None?;
        assert boxes == boxes0 + [BoxAt(det.locations, n - 1, width, height, RectStyle(|boxes0|))];
        assert k == k0 + [n - 1];
        forall j | 0 <= j < |k|
          ensures boxes[j] == BoxAt(det.locations, k[j], width, height, RectStyle(j))
        {
          if j < |k0| {
            assert boxes[j] == boxes0[j] && k[j] == k0[j];
          }
        }
      } else {
        assert boxes == boxes0;
        assert k == k0;
      }
    }
  }

  /** The whole loop: it draws without throwing exactly when every detection
      whose score is above the threshold can read its four locations; then it
      draws one box per such detection, in ascending index order (`Kept`), and
      the `j`-th box holds the `j`-th kept detection's coordinates scaled by the
      raster size, its unclamped size, its label position and the `j`-th
      rectangle's paint style. */
  lemma DecodeDrawsKept(det: DetectionSet, width: int, height: int)
    ensures Decode(det, width, height).Ok? <==> KeptInBounds(det, |det.scores|)
    ensures Decode(det, width, height).Ok? ==>
      var k, boxes, loc := Kept(det.scores, |det.scores|), Decode(det, width, height).value, det.locations;
      |boxes| == |k| &&
      forall j :: 0 <= j < |k| ==>
        4 * k[j] + 3 < |loc| &&
        boxes[j].left == loc[4 * k[j] + 1] * width as real &&
        boxes[j].top == loc[4 * k[j]] * height as real &&
        boxes[j].right == loc[4 * k[j] + 3] * width as real &&
        boxes[j].bottom == loc[4 * k[j] + 2] * height as real &&
        boxes[j].text.objWidth == boxes[j].right - boxes[j].left &&
        boxes[j].text.objHeight == boxes[j].bottom - boxes[j].top &&
        boxes[j].text.x == boxes[j].left &&
        boxes[j].text.y == boxes[j].top - LabelRise &&
        boxes[j].style == (if j == 0 then Stroke else Fill)
  {
    DecodePrefixOutcome(det, width, height, |det.scores|);
    if Decode(det, width, height).Ok? {
      DecodePrefixBoxes(det, width, height, |det.scores|);
    }
  }

  /** When `locations` holds four values for every score, as the detector's
      parallel output arrays do, the loop never reads out of bounds. */
  lemma WellShapedOutputsDecode(det: DetectionSet, width: int, height: int)
    requires |det.locations| >= 4 * |det.scores|
    ensures Decode(det, width, height).Ok?
  {
    DecodePrefixOutcome(det, width, height, |det.scores|);
  }

  /** The loop throws at the first out-of-bounds read of the smallest index
      whose score is above the threshold and whose locations do not fit. */
  lemma DecodeFault(det: DetectionSet, width: int, height: int)
    requires Decode(det, width, height).Err?
    ensures exists i :: (0 <= i < |det.scores| && det.scores[i] > Threshold &&
      KeptInBounds(det, i) &&
      4 * i + 3 >= |det.locations| &&
      Decode(det, width, height).fault ==
        IndexOutOfBounds(if 4 * i + 1 >= |det.locations| then 4 * i + 1 else 4 * i + 3, |det.locations|))
  {
    DecodePrefixOutcome(det, width, height, |det.scores|);
  }

  /** `numberOfDetections` is read from the detector but never used: the
      boxes do not depend on it. */
  lemma {:induction false} DetectionCountIgnored(det: DetectionSet, width: int, height: int, count: seq<real>, n: nat)
    requires n <= |det.scores|
    ensures DecodePrefix(det, width, height, n) == DecodePrefix(det.(numberOfDetections := count), width, height, n)
    decreases n
  {
    if n > 0 {
      DetectionCountIgnored(det, width, height, count, n - 1);
    }
  }

  /** A score of exactly 0.5 draws nothing. */
  lemma ThresholdIsStrict(top: real, left: real, bottom: real, right: real, width: int, height: int)
    ensures Decode(DetectionSet([top, left, bottom, right], [0.5], [1.0]), width, height) == Ok([])
  {
    var det := DetectionSet([top, left, bottom, right], [0.5], [1.0]);
    assert DecodePrefix(det, width, height, 0) == Ok([]);
  }

  /** Three detections scored 0.9, 0.3 and 0.6 on a 640 x 480 raster: indices
      0 and 2 are drawn, in that order; the first box, at normalized
      `[0.1, 0.2, 0.5, 0.6]`, spans 128..384 by 48..240 and is stroked, and the
      second is filled. */
  lemma ThreeDetectionScenario(rest: seq<real>)
    requires |rest| == 8
    ensures var det := DetectionSet([0.1, 0.2, 0.5, 0.6] + rest, [0.9, 0.3, 0.6], [3.0]);
      Decode(det, 640, 480) == Ok([
        Box(128.0, 48.0, 384.0, 240.0, Stroke, SizeLabel(256.0, 192.0, 128.0, 38.0)),
        BoxAt(det.locations, 2, 640, 480, Fill)])
  {
    var det := DetectionSet([0.1, 0.2, 0.5, 0.6] + rest, [0.9, 0.3, 0.6], [3.0]);
    var loc := det.locations;
    assert loc[0] == 0.1 && loc[1] == 0.2 && loc[2] == 0.5 && loc[3] == 0.6;
    assert BoxAt(loc, 0, 640, 480, Stroke) == Box(128.0, 48.0, 384.0, 240.0, Stroke, SizeLabel(256.0, 192.0, 128.0, 38.0));
    assert DecodePrefix(det, 640, 480, 0) == Ok([]);
    assert det.scores[0] > Threshold && FirstBadRead(0, |loc|) == None && RectStyle(0) == Stroke;
    assert [] + [BoxAt(loc, 0, 640, 480, Stroke)] == [BoxAt(loc, 0, 640, 480, Stroke)];
    assert DecodePrefix(det, 640, 480, 1) == Ok([Box(128.0, 48.0, 384.0, 240.0, Stroke, SizeLabel(256.0, 192.0, 128.0, 38.0))]);
    assert DecodePrefix(det, 640, 480, 2) == DecodePrefix(det, 640, 480, 1);
    assert |loc| == 12 && det.scores[2] > Threshold && FirstBadRead(2, |loc|) == None && RectStyle(1) == Fill;
    var first := [Box(128.0, 48.0, 384.0, 240.0, Stroke, SizeLabel(256.0, 192.0, 128.0, 38.0))];
    assert DecodePrefix(det, 640, 480, 3) == Ok(first + [BoxAt(loc, 2, 640, 480, Fill)]);
    assert first + [BoxAt(loc, 2, 640, 480, Fill)] == [first[0], BoxAt(loc, 2, 640, 480, Fill)];
  }

  /** Nothing clamps a box to the raster: a box whose right edge lies left of
      its left edge, and whose bottom lies below the raster, is drawn as is,
      with a negative width in its label. */
  lemma BoxesAreNotClamped()
    ensures Decode(DetectionSet([0.0, 0.75, 1.5, 0.25], [0.9], []), 100, 100) ==
      Ok([Box(75.0, 0.0, 25.0, 150.0, Stroke, SizeLabel(-50.0, 150.0, 75.0, -10.0))])
  {
    var det := DetectionSet([0.0, 0.75, 1.5, 0.25], [0.9], []);
    assert DecodePrefix(det, 100, 100, 0) == Ok([]);
    assert det.scores[0] > Threshold && FirstBadRead(0, |det.locations|) == None && RectStyle(0) == Stroke;
    assert [] + [BoxAt(det.locations, 0, 100, 100, Stroke)] == [BoxAt(det.locations, 0, 100, 100, Stroke)];
    assert BoxAt(det.locations, 0, 100, 100, Stroke) == Box(75.0, 0.0, 25.0, 150.0, Stroke, SizeLabel(-50.0, 150.0, 75.0, -10.0));
  }

  /** Locations too short for a kept detection: the read of `right` at index
      3 throws before `bottom` at index 2 is read. */
  lemma ShortLocationsThrowAtRight()
    ensures Decode(DetectionSet([0.1, 0.2], [0.9], [1.0]), 640, 480) == Err(IndexOutOfBounds(3, 2))
  {
    var det := DetectionSet([0.1, 0.2], [0.9], [1.0]);
    assert DecodePrefix(det, 640, 480, 0) == Ok([]);
  }
}
