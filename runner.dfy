/** The detection adapter: a builder holding the configuration, and a runner
    that owns buffers sized once from it, packs each cropped frame into the
    input tensor, runs the interpreter and decodes its outputs. */
module Runner {
  import opened Base
  import opened Engine
  import opened Nio
  import opened Pixels
  import opened Decoding

  /** The source frame (`android.graphics.Bitmap`), reduced to its size. */
  datatype Bitmap = Bitmap(width: int, height: int)

  /** A coordinate transform (`android.graphics.Matrix`), as its nine entries. */
  datatype Matrix = Matrix(values: seq<real>)

  /** The configuration is buildable when the sizes are non-negative and the
      largest buffer size, computed in Java `int`, does not overflow. */
  predicate Buildable(width: int, height: int, quantized: bool, maxDetections: int)
  {
    0 <= width && 0 <= height && 0 <= maxDetections &&
    width * height * 3 * BytesPerChannel(quantized) <= IntMax
  }

  class Builder {
    var inputWidth: int32
    var inputHeight: int32
    var modelQuantized: bool
    var numDetections: int32

    /** A 300 x 300 quantized input and at most 10 detections. */
    constructor ()
      ensures inputWidth == 300 && inputHeight == 300
      ensures modelQuantized && numDetections == 10
    {
      inputWidth, inputHeight := 300, 300;
      modelQuantized, numDetections := true, 10;
    }

    method SetInputWidth(width: int32) returns (self: Builder)
      modifies this
      ensures self == this && inputWidth == width
      ensures inputHeight == old(inputHeight) && modelQuantized == old(modelQuantized)
      ensures numDetections == old(numDetections)
    {
      inputWidth := width;
      self := this;
    }

    method SetInputHeight(height: int32) returns (self: Builder)
      modifies this
      ensures self == this && inputHeight == height
      ensures inputWidth == old(inputWidth) && modelQuantized == old(modelQuantized)
      ensures numDetections == old(numDetections)
    {
      inputHeight := height;
      self := this;
    }

    /** Sets width and height to the same size. */
    method SetInputSize(size: int32) returns (self: Builder)
      modifies this
      ensures self == this && inputWidth == size && inputHeight == size
      ensures modelQuantized == old(modelQuantized) && numDetections == old(numDetections)
    {
      var _ := SetInputWidth(size);
      var _ := SetInputHeight(size);
      self := this;
    }

    method SetModelQuantized(quantized: bool) returns (self: Builder)
      modifies this
      ensures self == this && modelQuantized == quantized
      ensures inputWidth == old(inputWidth) && inputHeight == old(inputHeight)
      ensures numDetections == old(numDetections)
    {
      modelQuantized := quantized;
      self := this;
    }

    method SetNumDetections(maxDetections: int32) returns (self: Builder)
      modifies this
      ensures self == this && numDetections == maxDetections
      ensures inputWidth == old(inputWidth) && inputHeight == old(inputHeight)
      ensures modelQuantized == old(modelQuantized)
    {
      numDetections := maxDetections;
      self := this;
    }

    /** A runner over this builder, with no frame and no transform set. */
    method Build() returns (runner: DetectorRunner)
      requires Buildable(inputWidth as int, inputHeight as int, modelQuantized, numDetections as int)
      ensures fresh(runner) && fresh(runner.Repr()) && runner.builder == this
      ensures runner.Valid() && runner.bitmap.None? && runner.matrix.None?
    {
      runner := new DetectorRunner(this);
    }
  }

  class DetectorRunner {
    /** The builder itself, not a copy: the runner reads its fields at every run. */
    const builder: Builder

    var bitmap: Option<Bitmap>
    var matrix: Option<Matrix>
    var rotationDegrees: int32

    const intValues: array<int32>
    const imgData: ByteBuffer
    // The output tensors, without their batch dimension of 1.
    const outputLocations: array2<real>
    const outputClasses: array<real>
    const outputScores: array<real>
    const numDetections: array<real>

    /** The objects a run writes. */
    ghost function Repr(): set<object>
    {
      {intValues, imgData, imgData.data, outputLocations, outputClasses, outputScores, numDetections}
    }

    /** The buffers have the sizes the builder's configuration asks for. This
        holds after `Build` for as long as nobody changes the builder. */
    ghost predicate Valid()
      reads this, builder
    {
      var w, h, n := builder.inputWidth as int, builder.inputHeight as int, builder.numDetections as int;
      Buildable(w, h, builder.modelQuantized, n) &&
      intValues.Length == w * h &&
      imgData.data.Length == w * h * 3 * BytesPerChannel(builder.modelQuantized) &&
      outputLocations.Length0 == n && outputLocations.Length1 == 4 &&
      outputClasses.Length == n && outputScores.Length == n && numDetections.Length == 1 &&
      outputClasses != outputScores && outputClasses != numDetections && outputScores != numDetections
    }

    /** The input width, read from the builder. */
    function Width(): nat
      reads this, builder
      requires Valid()
    {
      builder.inputWidth as nat
    }

    /** The input height, read from the builder. */
    function Height(): nat
      reads this, builder
      requires Valid()
    {
      builder.inputHeight as nat
    }

    /** Both a frame and a transform have been set. */
    predicate Ready()
      reads this
    {
      bitmap.Some? && matrix.Some?
    }

    /** Sizes every buffer once from the builder's configuration. */
    constructor (builder: Builder)
      requires Buildable(builder.inputWidth as int, builder.inputHeight as int, builder.modelQuantized,
                         builder.numDetections as int)
      ensures this.builder == builder && Valid() && fresh(Repr())
      ensures bitmap.None? && matrix.None? && rotationDegrees == 0
      ensures intValues.Length == builder.inputWidth as int * builder.inputHeight as int
      ensures imgData.data.Length == builder.inputWidth as int * builder.inputHeight as int * 3 *
                                     BytesPerChannel(builder.modelQuantized)
      ensures imgData.position == 0
      ensures outputLocations.Length0 == builder.numDetections as int && outputLocations.Length1 == 4
      ensures outputClasses.Length == outputScores.Length == builder.numDetections as int
      ensures numDetections.Length == 1
    {
      this.builder := builder;
      var w, h, n := builder.inputWidth as int, builder.inputHeight as int, builder.numDetections as int;
      bitmap, matrix, rotationDegrees := None, None, 0;
      intValues := new int32[w * h];
      imgData := new ByteBuffer.Allocate(w * h * 3 * BytesPerChannel(builder.modelQuantized));
      outputLocations := new real[n, 4];
      outputClasses := new real[n];
      outputScores := new real[n];
      numDetections := new real[1];
    }

    method SetBitmap(frame: Option<Bitmap>) returns (self: DetectorRunner)
      modifies this
      ensures self == this && bitmap == frame
      ensures matrix == old(matrix) && rotationDegrees == old(rotationDegrees)
    {
      bitmap := frame;
      self := this;
    }

    method SetMatrix(transform: Option<Matrix>) returns (self: DetectorRunner)
      modifies this
      ensures self == this && matrix == transform
      ensures bitmap == old(bitmap) && rotationDegrees == old(rotationDegrees)
    {
      matrix := transform;
      self := this;
    }

    method SetRotationDegrees(degrees: int32) returns (self: DetectorRunner)
      modifies this
      ensures self == this && rotationDegrees == degrees
      ensures bitmap == old(bitmap) && matrix == old(matrix)
    {
      rotationDegrees := degrees;
      self := this;
    }

    /** Rewinds the input buffer and writes every pixel the nested loop visits,
        leaving the cursor exactly at the end of the buffer. */
    method PackImage(encode: real -> Word)
      requires Valid() && ReadsInBounds(Width(), Height())
      modifies imgData, imgData.data
      ensures Valid()
      ensures imgData.position == imgData.data.Length
      ensures imgData.data[..] == Packed(intValues[..], Width(), Height(), builder.modelQuantized, encode)
    {
      imgData.Rewind();
      ghost var visited: seq<int> := [];
      PackStart(intValues[..], Width(), Height(), builder.modelQuantized, encode);
      var i: int := 0;
      while i < builder.inputWidth as int
        invariant 0 <= i <= Width()
        invariant Packing(visited, i, 0, encode)
      {
        visited := PackRow(i, encode, visited);
        i := i + 1;
      }
      assert i == Width();
      PackDone(intValues[..], Width(), Height(), builder.modelQuantized, encode,
               visited, imgData.data[..imgData.position]);
      assert imgData.data[..] == imgData.data[..imgData.position];
    }

    /** The packing loop's state, read from the buffers. */
    ghost predicate Packing(visited: seq<int>, i: nat, j: nat, encode: real -> Word)
      reads this, builder, imgData, imgData.data, intValues
      requires Valid()
    {
      && imgData.position <= imgData.data.Length
      && PackProgress(intValues[..], Width(), Height(), builder.modelQuantized, encode,
                      visited, i, j, imgData.data[..imgData.position])
    }

    /** One pass of the outer packing loop: the inner loop over the height,
        writing the pixels at `i * width + j` for every `j`. */
    method PackRow(i: nat, encode: real -> Word, ghost visited: seq<int>) returns (ghost visitedAfter: seq<int>)
      requires Valid() && ReadsInBounds(Width(), Height()) && i < Width()
      requires Packing(visited, i, 0, encode)
      modifies imgData, imgData.data
      ensures Packing(visitedAfter, i + 1, 0, encode)
    {
      visitedAfter := visited;
      var j: int := 0;
      while j < builder.inputHeight as int
        invariant 0 <= j <= Height()
        invariant Packing(visitedAfter, i, j, encode)
      {
        visitedAfter := PackPixel(i, j, encode, visitedAfter);
        j := j + 1;
      }
      PackRowDone(intValues[..], Width(), Height(), builder.modelQuantized, encode,
                  visitedAfter, i, imgData.data[..imgData.position]);
    }

    /** One pass of the inner packing loop: reads the pixel at `i * width + j`
        and writes its bytes. */
    method PackPixel(i: nat, j: nat, encode: real -> Word, ghost visited: seq<int>) returns (ghost visitedAfter: seq<int>)
      requires Valid() && ReadsInBounds(Width(), Height()) && i < Width() && j < Height()
      requires Packing(visited, i, j, encode)
      modifies imgData, imgData.data
      ensures Packing(visitedAfter, i, j + 1, encode)
    {
      PackStep(intValues[..], Width(), Height(), builder.modelQuantized, encode,
               visited, i, j, imgData.data[..imgData.position]);
      var pixelValue := intValues[i * builder.inputWidth as int + j];
      PutPixel(pixelValue, encode);
      visitedAfter := visited + [VisitIndex(Width(), i, j)];
    }

    /** The body of the packing loop: the three channels of `p`, as bytes for
        a quantized model and as normalized floats otherwise. */
    method PutPixel(p: int32, encode: real -> Word)
      requires imgData.Valid() && imgData.position + BytesPerPixel(builder.modelQuantized) <= imgData.data.Length
      modifies imgData, imgData.data
      ensures imgData.Valid()
      ensures imgData.position == old(imgData.position) + BytesPerPixel(builder.modelQuantized)
      ensures imgData.data[..imgData.position] == old(imgData.data[..imgData.position]) + PixelBytes(p, builder.modelQuantized, encode)
    {
      if builder.modelQuantized {
        imgData.Put(Red(p));
        imgData.Put(Green(p));
        imgData.Put(Blue(p));
      } else {
        imgData.PutFloat(Normalized(Red(p)), encode);
        imgData.PutFloat(Normalized(Green(p)), encode);
        imgData.PutFloat(Normalized(Blue(p)), encode);
      }
    }

    /** One recognition per index below `count`, in index order. */
    method CollectRecognitions(count: nat) returns (recognitions: seq<Recognition>)
      requires Valid() && count <= builder.numDetections as int
      ensures |recognitions| == count
      ensures forall i :: 0 <= i < count ==> recognitions[i] == RecognitionAt(i)
    {
      recognitions := [];
      var i := 0;
      while i < count
        invariant 0 <= i <= count && |recognitions| == i
        invariant forall k :: 0 <= k < i ==> recognitions[k] == RecognitionAt(k)
      {
        var w := builder.inputWidth as real;
        var detection := Box(outputLocations[i, 1] * w, outputLocations[i, 0] * w,
                             outputLocations[i, 3] * w, outputLocations[i, 2] * w);
        recognitions := recognitions + [Recognition(FloatToInt(outputClasses[i]), "", outputScores[i], detection)];
        i := i + 1;
      }
    }

    /** The recognition that output row `i` describes. */
    ghost function RecognitionAt(i: nat): Recognition
      reads this, builder, outputLocations, outputClasses, outputScores
      requires Valid() && i < builder.numDetections as int
    {
      var e := EngineBox(outputLocations[i, 0], outputLocations[i, 1], outputLocations[i, 2], outputLocations[i, 3]);
      ToRecognition(e, outputClasses[i], outputScores[i], builder.inputWidth as int)
    }

    /** One detection pass. Without a frame or a transform nothing is touched
        and the result is `NotReady`. A crop with a zero side cannot be
        created, and nothing is touched either. Otherwise `cropped` stands for
        the pixels the frame, rendered through the transform for the current
        rotation, yields; they are copied into the pixel array, packed into
        the input buffer, the interpreter fills the outputs from that buffer,
        and the outputs are decoded. */
    method Run(interpreter: Interpreter?, cropped: seq<int32>, encode: real -> Word) returns (result: RunResult)
      requires Valid()
      requires Ready() && Width() > 0 && Height() > 0 ==>
        && interpreter != null && !interpreter.closed
        && |cropped| == Width() * Height() && ReadsInBounds(Width(), Height())
      modifies Repr()
      ensures Valid()
      ensures !Ready() ==> result == NotReady && unchanged(Repr())
      ensures Ready() && (Width() == 0 || Height() == 0) ==>
        result == InvalidSize(Width(), Height()) && unchanged(Repr())
      ensures Ready() && Width() > 0 && Height() > 0 ==>
        var t := interpreter.model(imgData.data[..]);
        && intValues[..] == cropped
        && imgData.position == imgData.data.Length
        && imgData.data[..] == Packed(cropped, Width(), Height(), builder.modelQuantized, encode)
        && OutputsHold(t, outputLocations, outputClasses, outputScores, numDetections)
        && result == Decode(t, builder.numDetections as nat, builder.inputWidth as int)
    {
      if bitmap.None? || matrix.None? {
        return NotReady;
      }
      if builder.inputWidth <= 0 || builder.inputHeight <= 0 {
        return InvalidSize(builder.inputWidth as int, builder.inputHeight as int);
      }
      GetPixels(cropped);
      PackImage(encode);
      interpreter.RunForMultipleInputsOutputs(imgData.data, outputLocations, outputClasses, outputScores, numDetections);
      result := DecodeOutputs(interpreter.model(imgData.data[..]));
    }

    /** Turns the outputs the interpreter wrote into the result: the reported
        count clamped to the maximum, then one recognition per index. */
    method DecodeOutputs(ghost t: Tensors) returns (result: RunResult)
      requires Valid() && OutputsHold(t, outputLocations, outputClasses, outputScores, numDetections)
      ensures result == Decode(t, builder.numDetections as nat, builder.inputWidth as int)
    {
      var count := Min(builder.numDetections as int, FloatToInt(numDetections[0]));
      if count < 0 {
        return CapacityError(count);
      }
      var recognitions := CollectRecognitions(count);
      ghost var expected := Decode(t, builder.numDetections as nat, builder.inputWidth as int);
      assert expected.Detected? && |expected.recognitions| == count;
      forall k | 0 <= k < count
        ensures recognitions[k] == expected.recognitions[k]
      {
        assert recognitions[k] == RecognitionAt(k);
      }
      result := Detected(recognitions);
    }

    /** `Bitmap.getPixels` into the pixel array: the rendered crop, row by row. */
    method GetPixels(cropped: seq<int32>)
      requires Valid() && |cropped| == intValues.Length
      modifies intValues
      ensures intValues[..] == cropped
    {
      forall k | 0 <= k < intValues.Length {
        intValues[k] := cropped[k];
      }
    }
  }
}
