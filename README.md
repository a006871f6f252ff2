# TensorFlow Lite detection library: verified model

This project models the two pieces of logic of an Android library that wraps
the TensorFlow Lite interpreter for object detection.

- The detection adapter `DetectorRunner` and its `Builder`. The builder holds
  the input width and height, whether the model is quantized, and the maximum
  number of detections. The runner sizes its buffers once from that
  configuration. At each `run` it packs the cropped frame's pixels into the
  input byte buffer through a nested loop and a moving cursor. It then lets the
  interpreter fill four output tensors and turns those into a list of
  recognitions.
- The interpreter holder `TFLite`. It is a process-wide singleton that owns at
  most one interpreter. Every load releases the held interpreter first.
  `release` closes the held interpreter and forgets it. `run` hands the held
  interpreter, possibly null, to a callback.

Modules:

- `Base` (base.dfy): Java's `int` range, unsigned bytes, and the `(int)` cast of
  a float.
- `Engine` (engine.dfy): the interpreter, a foreign class. It is a handle with
  a ghost `closed` flag, and its model is a function from input bytes to output
  tensors.
- `Nio` (nio.dfy): the part of `java.nio.ByteBuffer` that is used, an array
  with a write cursor.
- `Pixels` (pixels.dfy): which index the packing loop reads at each step, and
  which bytes it writes for each pixel.
- `Decoding` (decoding.dfy): how the outputs become recognitions.
- `Runner` (runner.dfy): the `Builder` and `DetectorRunner` classes.
- `TensorFlow` (tflite.dfy): the `TFLite` holder and its static instance.

Main results:

- The packing loop leaves the cursor exactly at the end of the buffer. The
  buffer then equals `Packed`, the visited pixels encoded in visiting order:
  three bytes per pixel for a quantized model, three four-byte floats
  otherwise. In quantized mode, the k-th visited pixel writes its red, green
  and blue bytes at offsets 3k, 3k+1 and 3k+2.
- The loop reads index `i * width + j` with `i < width` and `j < height`. These
  reads stay inside the `width * height` pixel array exactly when the height
  is zero, the width is at most one, or the width is at most the height. The
  loop reads every pixel exactly once, in array order, exactly when the input
  is square, the width is at most one, or the height is zero. When
  `2 <= width < height`, index `width` is read twice. The height-0 case
  concerns the loop alone: a run never reaches the loop with a zero side,
  because creating the crop bitmap fails first.
- A run without a frame or without a transform returns nothing and touches
  nothing. A run whose crop has a zero side fails as `createBitmap` does,
  with `InvalidSize`, before any buffer is touched. Otherwise the four output
  arrays hold the model's outputs on the packed buffer, and the result is `Decode` of what the interpreter computed
  from the packed buffer. That result has exactly `min(numDetections, (int)
  count)` recognitions. Recognition i takes its class, score and box from
  output row i, with the box axes in the order 1, 0, 3, 2, each coordinate
  scaled by the input width. A count of -1 or less makes the list's
  constructor throw.
- The holder never has more than one open interpreter of its own. Any replaced
  interpreter has been closed. `release` is a no-op when nothing is held.

## Model

| member | source | states |
|---|---|---|
| Base.FloatToInt | library_tensorflow/src/main/java/ceneax/lib/tensorflow/runner/DetectorRunner.java:113 | `(int)` of a float rounds toward zero into the `int` range: the result is within one of the input, on the zero side, and saturates at both bounds |
| Base.FloatToIntTowardZero | library_tensorflow/src/main/java/ceneax/lib/tensorflow/runner/DetectorRunner.java:113 | the cast keeps the sign, never grows the magnitude, and is negative exactly from -1.0 downward |
| Base.Min | library_tensorflow/src/main/java/ceneax/lib/tensorflow/runner/DetectorRunner.java:113 | `Math.min`: no larger than either argument and equal to one of them |
| Engine.Interpreter.constructor | library_tensorflow/src/main/java/ceneax/lib/tensorflow/TFLite.java:33-53 | a new interpreter is open and bound to its model source and model |
| Engine.Interpreter.Close | library_tensorflow/src/main/java/ceneax/lib/tensorflow/TFLite.java:70-75 | after `close` the handle is closed |
| Engine.OutputsHold | library_tensorflow/src/main/java/ceneax/lib/tensorflow/runner/DetectorRunner.java:101-110 | (definition) the four output arrays hold a tensor set: the boxes, classes and scores row by row, and the count in a one-element array |
| Engine.Interpreter.RunForMultipleInputsOutputs | library_tensorflow/src/main/java/ceneax/lib/tensorflow/runner/DetectorRunner.java:101-110 | needs an open handle; overwrites outputs 0 to 3 (boxes, classes, scores, count) with what the model computes from the input bytes, matched by position |
| Nio.ByteBuffer.Allocate | library_tensorflow/src/main/java/ceneax/lib/tensorflow/runner/DetectorRunner.java:57 | a fresh zero-filled buffer of the requested capacity with the cursor at 0 |
| Nio.ByteBuffer.Rewind | library_tensorflow/src/main/java/ceneax/lib/tensorflow/runner/DetectorRunner.java:83 | the cursor goes back to 0 |
| Nio.ByteBuffer.Put | library_tensorflow/src/main/java/ceneax/lib/tensorflow/runner/DetectorRunner.java:90-92 | writes one byte at the cursor, changes no other byte, and advances the cursor by one |
| Nio.ByteBuffer.PutFloat | library_tensorflow/src/main/java/ceneax/lib/tensorflow/runner/DetectorRunner.java:94-96 | writes the float's four bytes at the cursor, changes no other byte, and advances the cursor by four |
| Pixels.Bits | library_tensorflow/src/main/java/ceneax/lib/tensorflow/runner/DetectorRunner.java:90-96 | a Java `int` read as its unsigned 32-bit pattern: in [0, 2^32) and congruent to the value modulo 2^32 |
| Pixels.Red | library_tensorflow/src/main/java/ceneax/lib/tensorflow/runner/DetectorRunner.java:90-96 | `(p >> 16) & 0xFF`: bits 16 to 23 of the pixel's 32-bit pattern |
| Pixels.Green | library_tensorflow/src/main/java/ceneax/lib/tensorflow/runner/DetectorRunner.java:90-96 | `(p >> 8) & 0xFF`: bits 8 to 15 of the pixel's 32-bit pattern |
| Pixels.Blue | library_tensorflow/src/main/java/ceneax/lib/tensorflow/runner/DetectorRunner.java:90-96 | `p & 0xFF`: bits 0 to 7 of the pixel's 32-bit pattern |
| Pixels.RgbRoundTrip | library_tensorflow/src/main/java/ceneax/lib/tensorflow/runner/DetectorRunner.java:90-92 | the three extracted channels put back together give the pixel's low 24 bits, so only alpha is lost |
| Pixels.Normalized | library_tensorflow/src/main/java/ceneax/lib/tensorflow/runner/DetectorRunner.java:94-96 | `(c - 127.5) / 127.5` lies in [-1, 1] and maps back to the channel value c |
| Pixels.BytesPerChannel | library_tensorflow/src/main/java/ceneax/lib/tensorflow/runner/DetectorRunner.java:56-57 | (definition) one byte per channel for a quantized model, four otherwise |
| Pixels.PixelBytes | library_tensorflow/src/main/java/ceneax/lib/tensorflow/runner/DetectorRunner.java:88-97 | one pixel writes 3 bytes when quantized and 12 otherwise |
| Pixels.EncodedLength | library_tensorflow/src/main/java/ceneax/lib/tensorflow/runner/DetectorRunner.java:83-99 | encoding k pixels writes k times the bytes per pixel |
| Pixels.EncodedAt | library_tensorflow/src/main/java/ceneax/lib/tensorflow/runner/DetectorRunner.java:88-97 | the k-th pixel owns bytes [k*n, k*n+n) of the tensor and they are its own bytes |
| Pixels.QuantizedLayout | library_tensorflow/src/main/java/ceneax/lib/tensorflow/runner/DetectorRunner.java:88-92 | in a quantized tensor the k-th visited pixel's red, green and blue sit at offsets 3k, 3k+1 and 3k+2 |
| Pixels.UnpackEncoded | library_tensorflow/src/main/java/ceneax/lib/tensorflow/runner/DetectorRunner.java:88-92 | reading a quantized tensor back three bytes at a time gives every visited pixel's colour without alpha |
| Pixels.VisitIndex | library_tensorflow/src/main/java/ceneax/lib/tensorflow/runner/DetectorRunner.java:85-87 | (definition) the index read with outer counter i and inner counter j is `i * width + j` |
| Pixels.RowVisits | library_tensorflow/src/main/java/ceneax/lib/tensorflow/runner/DetectorRunner.java:86-87 | (definition) one pass of the inner loop: the first n indices `i * width + j` for j = 0, 1, ... in order |
| Pixels.VisitOrder | library_tensorflow/src/main/java/ceneax/lib/tensorflow/runner/DetectorRunner.java:85-86 | (definition) the indices read by the first `rows` outer passes, each pass reading `height` indices in order |
| Pixels.VisitOrderLength | library_tensorflow/src/main/java/ceneax/lib/tensorflow/runner/DetectorRunner.java:85-86 | `rows` outer passes read `rows * height` indices |
| Pixels.VisitOrderPrefix | library_tensorflow/src/main/java/ceneax/lib/tensorflow/runner/DetectorRunner.java:85-86 | later outer passes only append to the reads of earlier ones |
| Pixels.VisitIndexInBounds | library_tensorflow/src/main/java/ceneax/lib/tensorflow/runner/DetectorRunner.java:85-87 | under the shape condition, index `i * width + j` is inside the `width * height` pixel array |
| Pixels.ReadsInBoundsIff | library_tensorflow/src/main/java/ceneax/lib/tensorflow/runner/DetectorRunner.java:85-87 | every read is in range exactly when the height is 0, the width is at most 1, or the width is at most the height |
| Pixels.VisitOrderInBounds | library_tensorflow/src/main/java/ceneax/lib/tensorflow/runner/DetectorRunner.java:85-87 | under the shape condition, every index read by the first `rows` passes is in range |
| Pixels.SquareVisitOrder | library_tensorflow/src/main/java/ceneax/lib/tensorflow/runner/DetectorRunner.java:85-87 | for a square input, the first `rows` passes read 0, 1, ..., rows*width - 1 in order |
| Pixels.VisitOrderIsRange | library_tensorflow/src/main/java/ceneax/lib/tensorflow/runner/DetectorRunner.java:85-87 | every pixel is read exactly once, in array order, exactly when the input is square, the width is at most 1, or the height is 0 |
| Pixels.DuplicateRead | library_tensorflow/src/main/java/ceneax/lib/tensorflow/runner/DetectorRunner.java:85-87 | when `2 <= width < height`, index `width` is read at both step `width` and step `height` |
| Pixels.Encoded | library_tensorflow/src/main/java/ceneax/lib/tensorflow/runner/DetectorRunner.java:83-99 | (definition) a pixel sequence encoded pixel after pixel, each as `PixelBytes` |
| Pixels.Packed | library_tensorflow/src/main/java/ceneax/lib/tensorflow/runner/DetectorRunner.java:83-99 | (definition) the input tensor: the pixels in the loop's visiting order, encoded |
| Pixels.PackedSize | library_tensorflow/src/main/java/ceneax/lib/tensorflow/runner/DetectorRunner.java:57 | the packed tensor has exactly the capacity allocated for it: W*H*3 bytes when quantized, W*H*12 otherwise |
| Pixels.PackedSquare | library_tensorflow/src/main/java/ceneax/lib/tensorflow/runner/DetectorRunner.java:83-99 | for a square input the tensor is the pixel array encoded in array order |
| Pixels.PackStep | library_tensorflow/src/main/java/ceneax/lib/tensorflow/runner/DetectorRunner.java:86-97 | one inner step reads inside the array, its bytes fit in the buffer, and appending them keeps the buffer equal to the encoding of the pixels visited so far |
| Pixels.PackDone | library_tensorflow/src/main/java/ceneax/lib/tensorflow/runner/DetectorRunner.java:83-99 | after the last outer pass the bytes written fill the buffer's capacity and equal the packed tensor |
| Decoding.EngineBoxAt | library_tensorflow/src/main/java/ceneax/lib/tensorflow/runner/DetectorRunner.java:118-122 | (definition) output row i's four box coordinates in engine order: top, left, bottom, right |
| Decoding.ToBox | library_tensorflow/src/main/java/ceneax/lib/tensorflow/runner/DetectorRunner.java:118-122 | (definition) the box takes the engine axes in the order 1, 0, 3, 2, each multiplied by the input width |
| Decoding.ToRecognition | library_tensorflow/src/main/java/ceneax/lib/tensorflow/runner/DetectorRunner.java:124 | (definition) class id cast from the class value, empty title, score unchanged, box `ToBox` |
| Decoding.ToBoxInverse | library_tensorflow/src/main/java/ceneax/lib/tensorflow/runner/DetectorRunner.java:118-122 | the box is the engine row with axes permuted (1, 0, 3, 2) and scaled by the width: dividing by the width and permuting back restores the row |
| Decoding.DetectionCount | library_tensorflow/src/main/java/ceneax/lib/tensorflow/runner/DetectorRunner.java:113 | the smaller of the configured maximum and the cast engine count (at most both, equal to one of them); negative exactly when the maximum is negative or the engine count is at most -1 |
| Decoding.Decode | library_tensorflow/src/main/java/ceneax/lib/tensorflow/runner/DetectorRunner.java:113-127 | decoding never yields "not ready" nor an invalid size; it fails exactly when the engine count is at most -1, and otherwise yields `DetectionCount` recognitions |
| Decoding.DecodeInEngineOrder | library_tensorflow/src/main/java/ceneax/lib/tensorflow/runner/DetectorRunner.java:117-124 | recognition i has the truncated class of row i, its score unchanged, an empty title, and box (loc[i][1], loc[i][0], loc[i][3], loc[i][2]) times the input width |
| Decoding.DecodeCount | library_tensorflow/src/main/java/ceneax/lib/tensorflow/runner/DetectorRunner.java:113-117 | with a count above -1 there are exactly `min(numDetections, (int) count)` recognitions, never more than the maximum |
| Runner.Builder.constructor | library_tensorflow/src/main/java/ceneax/lib/tensorflow/runner/DetectorRunner.java:159-167 | defaults: width 300, height 300, quantized, at most 10 detections |
| Runner.Builder.SetInputWidth | library_tensorflow/src/main/java/ceneax/lib/tensorflow/runner/DetectorRunner.java:169-172 | sets the width only and returns the same builder |
| Runner.Builder.SetInputHeight | library_tensorflow/src/main/java/ceneax/lib/tensorflow/runner/DetectorRunner.java:174-177 | sets the height only and returns the same builder |
| Runner.Builder.SetInputSize | library_tensorflow/src/main/java/ceneax/lib/tensorflow/runner/DetectorRunner.java:179-183 | sets both width and height to the size, leaves the rest, and returns the same builder |
| Runner.Builder.SetModelQuantized | library_tensorflow/src/main/java/ceneax/lib/tensorflow/runner/DetectorRunner.java:185-188 | sets the quantized flag only and returns the same builder |
| Runner.Builder.SetNumDetections | library_tensorflow/src/main/java/ceneax/lib/tensorflow/runner/DetectorRunner.java:190-193 | sets the maximum detections only and returns the same builder |
| Runner.Builder.Build | library_tensorflow/src/main/java/ceneax/lib/tensorflow/runner/DetectorRunner.java:195-197 | a fresh runner over this very builder, with consistent buffers and no frame or transform |
| Runner.DetectorRunner.constructor | library_tensorflow/src/main/java/ceneax/lib/tensorflow/runner/DetectorRunner.java:52-64 | buffers sized from the configuration: W*H pixels, W*H*3*(1 or 4) bytes with the cursor at 0, N x 4 boxes, N classes, N scores, one count |
| Runner.DetectorRunner.Ready | library_tensorflow/src/main/java/ceneax/lib/tensorflow/runner/DetectorRunner.java:68 | (definition) the negated guard: both a frame and a transform are set |
| Runner.DetectorRunner.SetBitmap | library_tensorflow/src/main/java/ceneax/lib/tensorflow/runner/DetectorRunner.java:133-136 | sets the frame only and returns the same runner |
| Runner.DetectorRunner.SetMatrix | library_tensorflow/src/main/java/ceneax/lib/tensorflow/runner/DetectorRunner.java:141-144 | sets the transform only and returns the same runner |
| Runner.DetectorRunner.SetRotationDegrees | library_tensorflow/src/main/java/ceneax/lib/tensorflow/runner/DetectorRunner.java:149-152 | sets the rotation only and returns the same runner |
| Runner.DetectorRunner.GetPixels | library_tensorflow/src/main/java/ceneax/lib/tensorflow/runner/DetectorRunner.java:81-82 | the pixel array afterwards holds the rendered crop |
| Runner.DetectorRunner.PackImage | library_tensorflow/src/main/java/ceneax/lib/tensorflow/runner/DetectorRunner.java:83-99 | after rewinding and the nested loop, the cursor sits exactly at capacity and the buffer equals `Packed` of the pixel array |
| Runner.DetectorRunner.PackRow | library_tensorflow/src/main/java/ceneax/lib/tensorflow/runner/DetectorRunner.java:86-98 | one outer pass takes the loop state from the start of row i to the start of row i + 1 |
| Runner.DetectorRunner.PackPixel | library_tensorflow/src/main/java/ceneax/lib/tensorflow/runner/DetectorRunner.java:87-97 | one inner step reads index `i * width + j` and extends the written bytes by that pixel's bytes |
| Runner.DetectorRunner.PutPixel | library_tensorflow/src/main/java/ceneax/lib/tensorflow/runner/DetectorRunner.java:88-97 | appends red, green, blue as bytes (quantized) or as normalized floats, advancing the cursor by 3 or 12 |
| Runner.DetectorRunner.CollectRecognitions | library_tensorflow/src/main/java/ceneax/lib/tensorflow/runner/DetectorRunner.java:116-125 | builds exactly `count` recognitions, the i-th from output row i |
| Runner.DetectorRunner.RecognitionAt | library_tensorflow/src/main/java/ceneax/lib/tensorflow/runner/DetectorRunner.java:117-124 | (definition) the recognition built from output row i of the arrays: `ToRecognition` of its box row, class and score |
| Runner.DetectorRunner.DecodeOutputs | library_tensorflow/src/main/java/ceneax/lib/tensorflow/runner/DetectorRunner.java:113-127 | from outputs that hold the model's tensors, the result is exactly `Decode` of them: the clamped count, the capacity failure, the recognitions row by row |
| Runner.DetectorRunner.Run | library_tensorflow/src/main/java/ceneax/lib/tensorflow/runner/DetectorRunner.java:67-128 | without frame or transform: returns nothing and changes nothing; with a zero-sized crop: `InvalidSize` (the `createBitmap` exception) and changes nothing; otherwise the pixels are the crop, the buffer is full and equals `Packed`, the output arrays hold the model's outputs on that buffer, and the result is `Decode` of them |
| TensorFlow.TFLite.constructor | library_tensorflow/src/main/java/ceneax/lib/tensorflow/TFLite.java:30 | a new holder holds nothing and has created nothing |
| TensorFlow.TFLite.Release | library_tensorflow/src/main/java/ceneax/lib/tensorflow/TFLite.java:70-75 | a held interpreter is closed and the field becomes null; with nothing held the holder is unchanged, so a second call is a no-op; no open handle remains |
| TensorFlow.TFLite.LoadModel | library_tensorflow/src/main/java/ceneax/lib/tensorflow/TFLite.java:33-53 | the previous interpreter is closed first; on success the held interpreter is a fresh open one for this source and the only open one; when the engine refuses the model, nothing is held |
| TensorFlow.TFLite.OnlyNewestOpen | library_tensorflow/src/main/java/ceneax/lib/tensorflow/TFLite.java:33-53 | if all older handles are closed and the newest is held and open, the holder is consistent and the newest is its only open handle |
| TensorFlow.TFLite.LoadModelFromAsset | library_tensorflow/src/main/java/ceneax/lib/tensorflow/TFLite.java:55-57 | an unreadable asset fails before `release`, so the held interpreter stays loaded and open; a readable one is loaded as a mapped buffer of its bytes, as `LoadModel` does: the previous interpreter is closed, the new one is bound to that source and appended as the newest handle, and it is the only open one |
| TensorFlow.TFLite.GetInterpreter | library_tensorflow/src/main/java/ceneax/lib/tensorflow/TFLite.java:63-65 | returns the held interpreter: the one the last successful load created, or null after a release or failed load |
| TensorFlow.TFLite.Run | library_tensorflow/src/main/java/ceneax/lib/tensorflow/TFLite.java:80-82 | the callback receives the held interpreter, possibly null, and its result is returned unchanged; the holder is not modified |
| TensorFlow.AtMostOneOpen | library_tensorflow/src/main/java/ceneax/lib/tensorflow/TFLite.java:33-75 | of all interpreters the holder created, at most one is open, and an open one is the held one |
| TensorFlow.Statics.constructor | library_tensorflow/src/main/java/ceneax/lib/tensorflow/TFLite.java:18 | no instance exists before the first `getInstance` |
| TensorFlow.Statics.Valid | library_tensorflow/src/main/java/ceneax/lib/tensorflow/TFLite.java:18 | (definition) the shared holder, once it exists, is consistent |
| TensorFlow.Statics.GetInstance | library_tensorflow/src/main/java/ceneax/lib/tensorflow/TFLite.java:23-28 | creates an empty holder only when none exists, otherwise returns the existing one and changes nothing; the holder returned is always consistent, so it can be loaded or released |
| TensorFlow.GetInstanceTwice | library_tensorflow/src/main/java/ceneax/lib/tensorflow/TFLite.java:23-28 | two calls return the same, consistent holder |
| TensorFlow.ReloadAndRelease | library_tensorflow/src/main/java/ceneax/lib/tensorflow/TFLite.java:33-75 | load, load, get, release, get, release, get: the first interpreter (from the first source) is closed; `getInterpreter` then returns a different interpreter, from the second source and the newest the holder created; after each release it returns null; nothing stays open |

## Left out

- Android graphics: the transform from frame to crop, its unused inverse, and
  drawing the frame into an RGB_565 bitmap (DetectorRunner.java:72-80) are
  library code that is not shown. `Run` takes the rendered pixels as its
  `cropped` parameter. The frame is reduced to its size and the transform to
  its entries, and both are only tested for presence.
- Floating point: values are `real`. The float rounding of the normalized
  channels, of the scaled box coordinates and of the engine outputs is not
  modelled, and neither is NaN. `(int)` of a float is modelled exactly on reals
  (toward zero, saturating).
- Byte order: `putFloat`'s IEEE 754 encoding in the platform's byte order is
  the parameter `encode`, which gives four bytes per float.
- Signed bytes: buffer bytes are their unsigned bit patterns (0 to 255). Java's
  `(byte)` cast keeps exactly those bits.
- The interpreter is foreign code. Its construction from a file, a buffer or a
  mapped buffer, with or without options, is one `LoadModel` over a
  `ModelSource`. Whether the engine accepts a model is the parameter `parse`.
  What a loaded model computes is the function `model`. The output tensors
  drop their batch dimension of one.
- Asset reading (`ModelUtil.loadModelFile`) is not part of this model. The
  readable assets are the map `assets`, and a missing name stands for the
  `IOException`.
- Thread safety: the `synchronized` on `getInstance` and the absence of
  locking elsewhere are not modelled. The static field is the `Statics` class.
- The callback interface of `run` is a function parameter `Interpreter? ->
  T`. A callback with side effects is not modelled.
- Runner.Builder.Build: requires a non-negative width, height and maximum,
  and a buffer size that fits in an `int`. Outside that, the source's `int`
  arithmetic at lines 55 and 57 wraps. The allocations then either succeed
  with wrong sizes or throw. `NegativeArraySizeException` comes from line 55
  or lines 60-62. `IllegalArgumentException` comes from `allocateDirect` at
  line 57. A width and a height that are both negative build normally, and
  the run then fails at `createBitmap`. None of these paths is modelled.
- Runner.DetectorRunner.Run: requires, when frame and transform are set and
  the crop has no zero side, an open interpreter and a shape where every read is in range (height 0, width
  at most 1, or width at most height). The source throws a
  `NullPointerException`, an `IllegalStateException` or an
  `ArrayIndexOutOfBoundsException` in those cases instead.
- Runner.DetectorRunner.Run: requires that the builder still has the
  configuration the buffers were sized from (`Valid`). The runner keeps a
  reference to the builder, not a copy. Changing the builder after `build`
  makes the source's buffers disagree with its loops, and that is not
  modelled.
- Recognition titles are always empty, as the source passes `""`. The
  `Recognition` class itself is not part of this model and is the datatype
  `Decoding.Recognition`.
