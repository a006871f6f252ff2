/** A stand-in for the inference engine's `Interpreter`: a handle bound to a
    loaded model, closed at most once, that fills the caller's output tensors.
    The engine itself is foreign code; what it computes is a parameter here. */
module Engine {
  import opened Base

  /** The engine's interpreter options, passed through unread. */
  datatype Options = Options(settings: map<string, int>)

  /** Where a model is loaded from: one constructor per way the holder accepts
      a model (a file or a byte buffer, each with or without options, or a
      memory-mapped buffer). */
  datatype ModelSource =
    | File(path: string, options: Option<Options>)
    | Buffer(bytes: seq<byte>, options: Option<Options>)
    | Mapped(bytes: seq<byte>)

  /** What one inference writes into the four detection outputs: box
      coordinates per (detection, axis), class per detection, score per
      detection and the reported number of detections. */
  datatype Tensors = Tensors(
    locations: (int, int) -> real,
    classes: int -> real,
    scores: int -> real,
    count: real)

  /** A loaded model, as the function from the input tensor's bytes to the
      outputs it produces. */
  type Model = seq<byte> -> Tensors

  /** The four output arrays hold the tensors `t`, matched by position. */
  ghost predicate OutputsHold(t: Tensors, locations: array2<real>, classes: array<real>,
                              scores: array<real>, count: array<real>)
    reads locations, classes, scores, count
  {
    && (forall i, k :: 0 <= i < locations.Length0 && 0 <= k < locations.Length1 ==> locations[i, k] == t.locations(i, k))
    && (forall i :: 0 <= i < classes.Length ==> classes[i] == t.classes(i))
    && (forall i :: 0 <= i < scores.Length ==> scores[i] == t.scores(i))
    && count.Length == 1 && count[0] == t.count
  }

  class Interpreter {
    const source: ModelSource
    const model: Model
    /** Whether `close` has released the native resources of this handle. */
    ghost var closed: bool

    constructor (source: ModelSource, model: Model)
      ensures this.source == source && this.model == model
      ensures !closed
    {
      this.source := source;
      this.model := model;
      closed := false;
    }

    /** Releases the handle; closing a closed handle again has no effect. */
    method Close()
      modifies this
      ensures closed
    {
      closed := true;
    }

    /** Runs the model on the input tensor and overwrites the four outputs,
        matched by position: 0 boxes, 1 classes, 2 scores, 3 count. */
    method RunForMultipleInputsOutputs(input: array<byte>, locations: array2<real>,
                                       classes: array<real>, scores: array<real>,
                                       count: array<real>)
      requires !closed
      requires locations.Length1 == 4 && count.Length == 1
      requires classes != scores && classes != count && scores != count
      modifies locations, classes, scores, count
      ensures OutputsHold(model(input[..]), locations, classes, scores, count)
    {
      var t := model(input[..]);
      forall i, k | 0 <= i < locations.Length0 && 0 <= k < 4 {
        locations[i, k] := t.locations(i, k);
      }
      forall i | 0 <= i < classes.Length {
        classes[i] := t.classes(i);
      }
      forall i | 0 <= i < scores.Length {
        scores[i] := t.scores(i);
      }
      count[0] := t.count;
      assert input[..] == old(input[..]);
    }
  }
}
