/** How the detection adapter turns the four output tensors into
    recognitions: the reported count clamped to the configured maximum, and
    per index a class, a score and a box taken in engine order. */
module Decoding {
  import opened Base
  import opened Engine

  /** `android.graphics.RectF`: left, top, right, bottom. */
  datatype Box = Box(left: real, top: real, right: real, bottom: real)

  /** One detection: class id, title, confidence score and box. */
  datatype Recognition = Recognition(classId: int, title: string, score: real, location: Box)

  /** What one run of the adapter yields: nothing (no frame or no transform
      set, the source's `null`), the `IllegalArgumentException` of
      `Bitmap.createBitmap` asked for a crop with a zero side, the
      `IllegalArgumentException` of an `ArrayList` asked for a negative
      capacity, or the recognitions. */
  datatype RunResult =
    | NotReady
    | InvalidSize(width: int, height: int)
    | CapacityError(requested: int)
    | Detected(recognitions: seq<Recognition>)

  /** A box row as the engine reports it: top, left, bottom, right, each
      normalized to the input. */
  datatype EngineBox = EngineBox(top: real, left: real, bottom: real, right: real)

  /** The box row of detection `i` in the engine's outputs. */
  function EngineBoxAt(t: Tensors, i: int): EngineBox
  {
    EngineBox(t.locations(i, 0), t.locations(i, 1), t.locations(i, 2), t.locations(i, 3))
  }

  /** The adapter's box for an engine row: axes taken in the order 1, 0, 3, 2
      (left, top, right, bottom), every coordinate multiplied by the input
      width. The input height plays no part. */
  function ToBox(e: EngineBox, inputWidth: int): Box
  {
    var w := inputWidth as real;
    Box(e.left * w, e.top * w, e.right * w, e.bottom * w)
  }

  /** Dividing the box by the input width and taking the axes back in engine
      order gives the engine's row again. */
  lemma ToBoxInverse(e: EngineBox, inputWidth: int)
    requires inputWidth != 0
    ensures var b := ToBox(e, inputWidth); var w := inputWidth as real;
      EngineBox(b.top / w, b.left / w, b.bottom / w, b.right / w) == e
  {
  }

  /** The recognition built from one engine row, class value and score: the
      class is the class value cast to `int`, the score passes through, the
      title is empty. */
  function ToRecognition(e: EngineBox, classValue: real, score: real, inputWidth: int): Recognition
  {
    Recognition(FloatToInt(classValue), "", score, ToBox(e, inputWidth))
  }

  /** The number of recognitions: the engine's count cast to `int`, clamped to
      the configured maximum. */
  function DetectionCount(maxDetections: int, reported: real): (n: int)
    ensures n <= maxDetections && n <= FloatToInt(reported)
    ensures n == maxDetections || n == FloatToInt(reported)
    ensures n < 0 <==> maxDetections < 0 || reported <= -1.0
  {
    FloatToIntTowardZero(reported);
    Min(maxDetections, FloatToInt(reported))
  }

  /** What the adapter returns for the engine outputs `t`, once input packing
      and inference have run. */
  function Decode(t: Tensors, maxDetections: nat, inputWidth: int): (r: RunResult)
    ensures !r.NotReady? && !r.InvalidSize?
    ensures r.CapacityError? <==> t.count <= -1.0
    ensures r.Detected? ==> |r.recognitions| == DetectionCount(maxDetections, t.count)
  {
    var n := DetectionCount(maxDetections, t.count);
    if n < 0 then CapacityError(n)
    else Detected(seq(n, i => ToRecognition(EngineBoxAt(t, i), t.classes(i), t.scores(i), inputWidth)))
  }

  /** Recognition `i` is built from output row `i`, in the engine's order, with
      the class truncated toward zero and the score unchanged. */
  lemma DecodeInEngineOrder(t: Tensors, maxDetections: nat, inputWidth: int, i: nat)
    requires Decode(t, maxDetections, inputWidth).Detected?
    requires i < |Decode(t, maxDetections, inputWidth).recognitions|
    ensures var r := Decode(t, maxDetections, inputWidth).recognitions[i];
      && r.classId == FloatToInt(t.classes(i))
      && r.score == t.scores(i)
      && r.title == ""
      && r.location == Box(t.locations(i, 1) * inputWidth as real, t.locations(i, 0) * inputWidth as real,
                           t.locations(i, 3) * inputWidth as real, t.locations(i, 2) * inputWidth as real)
  {
  }

  /** With a non-negative count, there are exactly
      `min(maxDetections, (int) count)` recognitions. */
  lemma DecodeCount(t: Tensors, maxDetections: nat, inputWidth: int)
    requires t.count > -1.0
    ensures Decode(t, maxDetections, inputWidth).Detected?
    ensures |Decode(t, maxDetections, inputWidth).recognitions| == Min(maxDetections, FloatToInt(t.count))
    ensures |Decode(t, maxDetections, inputWidth).recognitions| <= maxDetections
  {
  }
}
