/** How the detection adapter turns the cropped frame's pixels into the bytes
    of the input tensor: which pixel the nested loop reads at each step, and
    which bytes it writes for each pixel read. */
module Pixels {
  import opened Base

  const ImageMean: real := 127.5
  const ImageStd: real := 127.5

  /** The 32-bit two's-complement pattern of a Java `int`, read as unsigned. */
  function Bits(p: int32): (u: int)
    ensures 0 <= u < 0x1_0000_0000
    ensures (u - p as int) % 0x1_0000_0000 == 0
  {
    if p < 0 then p as int + 0x1_0000_0000 else p as int
  }

  /** Shifting right by 0, 8 or 16 bits and keeping the low byte gives the same
      byte whether the shift is taken on the signed value or on its unsigned
      pattern. */
  lemma ByteOfPattern(x: int, d: int)
    requires d == 1 || d == 0x100 || d == 0x1_0000
    ensures ((x + 0x1_0000_0000) / d) % 0x100 == (x / d) % 0x100
  {
    var m := 0x1_0000_0000 / d;
    assert 0x1_0000_0000 == d * m;
    assert (x + d * m) / d == x / d + m;
    assert m % 0x100 == 0;
  }

  /** `(p >> 16) & 0xFF`. On a Java `int`, `>>` shifts arithmetically, which is
      floor division by a power of two; `& 0xFF` keeps the low byte, which is the
      non-negative remainder modulo 256. Dafny's `/` and `%` are exactly those.
      The result is bits 16 to 23 of the pixel's pattern. */
  function Red(p: int32): (r: byte)
    ensures r as int == Bits(p) / 0x1_0000 % 0x100
  {
    ByteOfPattern(p as int, 0x1_0000);
    ((p as int / 0x1_0000) % 0x100) as byte
  }

  /** `(p >> 8) & 0xFF`: bits 8 to 15 of the pixel's pattern. */
  function Green(p: int32): (r: byte)
    ensures r as int == Bits(p) / 0x100 % 0x100
  {
    ByteOfPattern(p as int, 0x100);
    ((p as int / 0x100) % 0x100) as byte
  }

  /** `p & 0xFF`: bits 0 to 7 of the pixel's pattern. */
  function Blue(p: int32): (r: byte)
    ensures r as int == Bits(p) % 0x100
  {
    ByteOfPattern(p as int, 1);
    (p as int % 0x100) as byte
  }

  /** The three channels put back together give the pixel's low 24 bits: the
      quantized bytes lose only the alpha byte. */
  lemma RgbRoundTrip(p: int32)
    ensures Red(p) as int * 0x1_0000 + Green(p) as int * 0x100 + Blue(p) as int == p as int % 0x100_0000
  {
    var x := p as int;
    var q8, q16 := x / 0x100, x / 0x1_0000;
    assert x == q8 * 0x100 + x % 0x100;
    assert q8 == q16 * 0x100 + q8 % 0x100;
    assert x == q16 * 0x1_0000 + (q8 % 0x100) * 0x100 + x % 0x100;
    var low := (q16 % 0x100) * 0x1_0000 + (q8 % 0x100) * 0x100 + x % 0x100;
    assert q16 == (q16 / 0x100) * 0x100 + q16 % 0x100;
    assert x == (q16 / 0x100) * 0x100_0000 + low;
    assert 0 <= low < 0x100_0000;
  }

  /** `(c - IMAGE_MEAN) / IMAGE_STD` for a channel value, before rounding to a
      float. */
  function Normalized(c: byte): (r: real)
    ensures -1.0 <= r <= 1.0
    ensures r * ImageStd + ImageMean == c as real
  {
    (c as real - ImageMean) / ImageStd
  }

  /** Bytes per colour channel: one for a quantized model, a four-byte float
      otherwise. */
  function BytesPerChannel(quantized: bool): nat
  {
    if quantized then 1 else 4
  }

  /** Bytes per pixel: three channels. */
  function BytesPerPixel(quantized: bool): nat
  {
    3 * BytesPerChannel(quantized)
  }

  lemma SliceOfConcat(a: seq<byte>, b: seq<byte>, lo: int, hi: int)
    requires 0 <= lo <= hi <= |a|
    ensures (a + b)[lo..hi] == a[lo..hi]
  {
  }

  lemma MulLeq(a: nat, b: nat, n: nat)
    requires a <= b
    ensures a * n <= b * n
  {
  }

  /** The bytes one loop iteration writes for pixel `p`: red, green and blue in
      that order, as raw bytes or as normalized floats laid out by `encode`. */
  function PixelBytes(p: int32, quantized: bool, encode: real -> Word): (s: seq<byte>)
    ensures |s| == BytesPerPixel(quantized)
  {
    if quantized then [Red(p), Green(p), Blue(p)]
    else encode(Normalized(Red(p))) + encode(Normalized(Green(p))) + encode(Normalized(Blue(p)))
  }

  /** The bytes written for the pixels `ps`, visited in order. */
  function Encoded(ps: seq<int32>, quantized: bool, encode: real -> Word): seq<byte>
    decreases |ps|
  {
    if ps == [] then []
    else Encoded(ps[..|ps| - 1], quantized, encode) + PixelBytes(ps[|ps| - 1], quantized, encode)
  }

  lemma {:induction false} EncodedLength(ps: seq<int32>, quantized: bool, encode: real -> Word)
    ensures |Encoded(ps, quantized, encode)| == |ps| * BytesPerPixel(quantized)
    decreases |ps|
  {
    if ps != [] {
      var n := BytesPerPixel(quantized);
      EncodedLength(ps[..|ps| - 1], quantized, encode);
      MulSucc(|ps| - 1, n);
    }
  }

  /** Pixel `k` owns the bytes `[k * n, k * n + n)` of the tensor, where `n` is
      the number of bytes per pixel. */
  lemma {:induction false} EncodedAt(ps: seq<int32>, quantized: bool, encode: real -> Word, k: nat)
    requires k < |ps|
    ensures var n := BytesPerPixel(quantized);
      |Encoded(ps, quantized, encode)| == |ps| * n &&
      Encoded(ps, quantized, encode)[k * n .. k * n + n] == PixelBytes(ps[k], quantized, encode)
    decreases |ps|
  {
    var n := BytesPerPixel(quantized);
    assert n == 3 || n == 12;
    MulLeq(0, k, n);
    var init := ps[..|ps| - 1];
    var prefix := Encoded(init, quantized, encode);
    var last := PixelBytes(ps[|ps| - 1], quantized, encode);
    EncodedLength(ps, quantized, encode);
    EncodedLength(init, quantized, encode);
    assert Encoded(ps, quantized, encode) == prefix + last;
    if k < |ps| - 1 {
      EncodedAt(init, quantized, encode, k);
      assert k * n + n <= |prefix| by {
        MulLeq(k + 1, |init|, n);
        assert (k + 1) * n == k * n + n;
      }
      SliceOfConcat(prefix, last, k * n, k * n + n);
    } else {
      assert k * n == |prefix| by {
        assert k == |init|;
      }
    }
  }

  /** In a quantized tensor, the k-th pixel visited writes its red, green and
      blue bytes at offsets 3k, 3k+1 and 3k+2. */
  lemma QuantizedLayout(ps: seq<int32>, encode: real -> Word, k: nat)
    requires k < |ps|
    ensures var s := Encoded(ps, true, encode);
      |s| == 3 * |ps| &&
      s[3 * k] == Red(ps[k]) && s[3 * k + 1] == Green(ps[k]) && s[3 * k + 2] == Blue(ps[k])
  {
    var n := BytesPerPixel(true);
    assert n == 3;
    EncodedAt(ps, true, encode, k);
    var s := Encoded(ps, true, encode);
    var bytes := s[k * n .. k * n + n];
    assert bytes == [Red(ps[k]), Green(ps[k]), Blue(ps[k])];
    assert k * n == 3 * k;
    assert s[3 * k] == bytes[0] && s[3 * k + 1] == bytes[1] && s[3 * k + 2] == bytes[2];
  }

  /** Reads a quantized tensor back: each three bytes give one 24-bit colour. */
  function Unpacked(s: seq<byte>): (colours: seq<int>)
    requires |s| % 3 == 0
    ensures |colours| == |s| / 3
    decreases |s|
  {
    if s == [] then []
    else Unpacked(s[..|s| - 3]) + [s[|s| - 3] as int * 0x1_0000 + s[|s| - 2] as int * 0x100 + s[|s| - 1] as int]
  }

  /** Unpacking a quantized tensor gives back each visited pixel without its
      alpha byte. */
  lemma {:induction false} UnpackEncoded(ps: seq<int32>, encode: real -> Word)
    ensures |Encoded(ps, true, encode)| == 3 * |ps|
    ensures Unpacked(Encoded(ps, true, encode)) == seq(|ps|, k requires 0 <= k < |ps| => ps[k] as int % 0x100_0000)
    decreases |ps|
  {
    EncodedLength(ps, true, encode);
    if ps != [] {
      var init, p := ps[..|ps| - 1], ps[|ps| - 1];
      var s := Encoded(ps, true, encode);
      UnpackEncoded(init, encode);
      assert s == Encoded(init, true, encode) + [Red(p), Green(p), Blue(p)];
      assert s[..|s| - 3] == Encoded(init, true, encode);
      RgbRoundTrip(p);
    }
  }

  // ---------------------------------------------------------------------------
  // The visiting order of the nested loop

  /** The index the loop body reads when the outer counter (bounded by the
      input width) is `i` and the inner counter (bounded by the input height)
      is `j`. */
  function VisitIndex(width: int, i: int, j: int): int
  {
    i * width + j
  }

  /** The indices read by the first `n` inner iterations of outer iteration `i`. */
  function RowVisits(width: int, i: int, n: nat): (r: seq<int>)
    ensures |r| == n
  {
    seq(n, j => VisitIndex(width, i, j))
  }

  /** The indices read by the first `rows` outer iterations, in order. */
  function VisitOrder(width: int, height: nat, rows: nat): seq<int>
  {
    if rows == 0 then [] else VisitOrder(width, height, rows - 1) + RowVisits(width, rows - 1, height)
  }

  lemma {:induction false} VisitOrderLength(width: int, height: nat, rows: nat)
    ensures |VisitOrder(width, height, rows)| == rows * height
  {
    if rows > 0 {
      VisitOrderLength(width, height, rows - 1);
    }
  }

  /** Later outer iterations only append: the first `rows` iterations read a
      prefix of what `more` iterations read. */
  lemma {:induction false} VisitOrderPrefix(width: int, height: nat, rows: nat, more: nat, k: nat)
    requires rows <= more && k < rows * height
    ensures |VisitOrder(width, height, rows)| == rows * height <= |VisitOrder(width, height, more)|
    ensures VisitOrder(width, height, more)[k] == VisitOrder(width, height, rows)[k]
    decreases more
  {
    VisitOrderLength(width, height, rows);
    VisitOrderLength(width, height, more);
    assert rows * height <= more * height;
    if rows < more {
      VisitOrderPrefix(width, height, rows, more - 1, k);
    }
  }

  /** The dimensions for which every index the loop reads lies inside the
      `width * height` pixel array: no rows, at most one outer iteration, or a
      width no larger than the height. */
  predicate ReadsInBounds(width: nat, height: nat)
  {
    height == 0 || width <= 1 || width <= height
  }

  lemma VisitIndexInBounds(width: nat, height: nat, i: nat, j: nat)
    requires ReadsInBounds(width, height) && i < width && j < height
    ensures 0 <= VisitIndex(width, i, j) < width * height
  {
    if width > 1 {
      MulLeq(i, width - 1, width);
      MulLeq(width, height, width - 1);
      assert (width - 1) * height + height == width * height;
    }
  }

  /** The loop's reads stay inside the pixel array exactly when
      `ReadsInBounds` holds; a width larger than the height (both above one)
      reads past the end at the last iteration. */
  lemma ReadsInBoundsIff(width: nat, height: nat)
    ensures ReadsInBounds(width, height) <==>
      forall i, j :: 0 <= i < width && 0 <= j < height ==> VisitIndex(width, i, j) < width * height
  {
    if ReadsInBounds(width, height) {
      forall i, j | 0 <= i < width && 0 <= j < height
        ensures VisitIndex(width, i, j) < width * height
      {
        VisitIndexInBounds(width, height, i, j);
      }
    } else {
      var i, j := width - 1, height - 1;
      assert (width - 1) * (width - height) >= 1;
      assert VisitIndex(width, i, j) >= width * height;
    }
  }

  lemma {:induction false} VisitOrderInBounds(width: nat, height: nat, rows: nat, k: nat)
    requires ReadsInBounds(width, height) && rows <= width && k < rows * height
    ensures |VisitOrder(width, height, rows)| == rows * height
    ensures 0 <= VisitOrder(width, height, rows)[k] < width * height
  {
    VisitOrderLength(width, height, rows);
    var prev := VisitOrder(width, height, rows - 1);
    VisitOrderLength(width, height, rows - 1);
    if k < (rows - 1) * height {
      VisitOrderInBounds(width, height, rows - 1, k);
    } else {
      VisitIndexInBounds(width, height, rows - 1, k - (rows - 1) * height);
    }
  }

  /** The array indices `0, 1, ..., n - 1`, in order. */
  function Range(n: nat): (r: seq<int>)
    ensures |r| == n
  {
    seq(n, k => k)
  }

  lemma {:induction false} SquareVisitOrder(width: nat, rows: nat)
    ensures VisitOrder(width, width, rows) == Range(rows * width)
  {
    if rows > 0 {
      SquareVisitOrder(width, rows - 1);
      assert rows * width == (rows - 1) * width + width;
      assert Range((rows - 1) * width) + RowVisits(width, rows - 1, width) == Range(rows * width);
    }
  }

  /** The loop reads every pixel exactly once, in array order, exactly when the
      input is square, has at most one column of outer iterations, or has no
      rows. */
  lemma VisitOrderIsRange(width: nat, height: nat)
    ensures VisitOrder(width, height, width) == Range(width * height) <==>
      (width == height || width <= 1 || height == 0)
  {
    var order := VisitOrder(width, height, width);
    VisitOrderLength(width, height, width);
    if width == height {
      SquareVisitOrder(width, width);
    } else if width == 0 {
    } else if width == 1 {
      assert order == RowVisits(1, 0, height);
    } else if height == 0 {
    } else if width > height {
      var last := width * height - 1;
      assert width * height == (width - 1) * height + height;
      assert order[last] == VisitIndex(width, width - 1, height - 1);
      assert (width - 1) * (width - height) >= 1;
      assert order[last] != Range(width * height)[last];
    } else {
      // width < height: row 0 reads index `width` at step `width`, and row 1
      // reads it again at step `height`.
      assert width * height >= 2 * height;
      VisitOrderPrefix(width, height, 1, width, width);
      VisitOrderPrefix(width, height, 2, width, height);
      assert VisitOrder(width, height, 2) == RowVisits(width, 0, height) + RowVisits(width, 1, height);
      assert order[height] == width;
      assert order[height] != Range(width * height)[height];
    }
  }

  /** An input higher than it is wide (width at least two) reads one
      index twice: the index `width`, at steps `width` and `height`. */
  lemma DuplicateRead(width: nat, height: nat)
    requires 2 <= width < height
    ensures |VisitOrder(width, height, width)| == width * height
    ensures VisitOrder(width, height, width)[width] == VisitOrder(width, height, width)[height] == width
  {
    VisitOrderLength(width, height, width);
    assert width * height >= 2 * height;
    VisitOrderPrefix(width, height, 1, width, width);
    VisitOrderPrefix(width, height, 2, width, height);
    assert VisitOrder(width, height, 2) == RowVisits(width, 0, height) + RowVisits(width, 1, height);
  }

  // ---------------------------------------------------------------------------
  // The whole input tensor

  /** The pixels at `order`, in that order. */
  function Gather(pixels: seq<int32>, order: seq<int>): (r: seq<int32>)
    requires forall k :: 0 <= k < |order| ==> 0 <= order[k] < |pixels|
    ensures |r| == |order|
  {
    seq(|order|, k requires 0 <= k < |order| => pixels[order[k]])
  }

  /** The bytes of the input tensor for the cropped frame `pixels`, as the
      nested loop writes them. */
  function Packed(pixels: seq<int32>, width: nat, height: nat, quantized: bool, encode: real -> Word): seq<byte>
    requires |pixels| == width * height && ReadsInBounds(width, height)
  {
    var order := VisitOrder(width, height, width);
    VisitOrderLength(width, height, width);
    assert forall k :: 0 <= k < |order| ==> 0 <= order[k] < |pixels| by {
      forall k | 0 <= k < |order| ensures 0 <= order[k] < |pixels| {
        VisitOrderInBounds(width, height, width, k);
      }
    }
    Encoded(Gather(pixels, order), quantized, encode)
  }

  lemma PackedUnfold(pixels: seq<int32>, width: nat, height: nat, quantized: bool, encode: real -> Word)
    requires |pixels| == width * height && ReadsInBounds(width, height)
    ensures forall k :: 0 <= k < |VisitOrder(width, height, width)| ==>
      0 <= VisitOrder(width, height, width)[k] < |pixels|
    ensures Packed(pixels, width, height, quantized, encode) ==
      Encoded(Gather(pixels, VisitOrder(width, height, width)), quantized, encode)
  {
    VisitOrderLength(width, height, width);
    forall k | 0 <= k < |VisitOrder(width, height, width)|
      ensures 0 <= VisitOrder(width, height, width)[k] < |pixels|
    {
      VisitOrderInBounds(width, height, width, k);
    }
  }

  /** The tensor holds `width * height * 3` bytes for a quantized model and
      `width * height * 3` four-byte floats otherwise. */
  lemma PackedSize(pixels: seq<int32>, width: nat, height: nat, quantized: bool, encode: real -> Word)
    requires |pixels| == width * height && ReadsInBounds(width, height)
    ensures |Packed(pixels, width, height, quantized, encode)| == width * height * 3 * BytesPerChannel(quantized)
  {
    PackedUnfold(pixels, width, height, quantized, encode);
    var order := VisitOrder(width, height, width);
    VisitOrderLength(width, height, width);
    EncodedLength(Gather(pixels, order), quantized, encode);
    Associate(width * height, 3, BytesPerChannel(quantized));
  }

  /** For a square input the tensor is the pixels encoded in array order. */
  lemma PackedSquare(pixels: seq<int32>, size: nat, quantized: bool, encode: real -> Word)
    requires |pixels| == size * size
    ensures Packed(pixels, size, size, quantized, encode) == Encoded(pixels, quantized, encode)
  {
    VisitOrderIsRange(size, size);
    var order := VisitOrder(size, size, size);
    assert Gather(pixels, order) == pixels;
  }

  // ---------------------------------------------------------------------------
  // The packing loop, step by step

  /** Where the packing loop stands after `i` outer passes and `j` inner steps:
      `visited` lists the indices read so far, in order, and the bytes written
      so far are exactly theirs. */
  ghost predicate PackProgress(pixels: seq<int32>, width: nat, height: nat, quantized: bool, encode: real -> Word,
                               visited: seq<int>, i: nat, j: nat, written: seq<byte>)
  {
    && i <= width && j <= height
    && visited == VisitOrder(width, height, i) + RowVisits(width, i, j)
    && (forall k :: 0 <= k < |visited| ==> 0 <= visited[k] < |pixels|)
    && written == Encoded(Gather(pixels, visited), quantized, encode)
  }

  lemma PackStart(pixels: seq<int32>, width: nat, height: nat, quantized: bool, encode: real -> Word)
    ensures PackProgress(pixels, width, height, quantized, encode, [], 0, 0, [])
  {
    assert RowVisits(width, 0, 0) == [];
  }

  /** One inner step: the index read lies inside the pixel array, its bytes fit
      in the buffer, and appending them keeps the buffer in step with the
      visiting order. */
  lemma PackStep(pixels: seq<int32>, width: nat, height: nat, quantized: bool, encode: real -> Word,
                 visited: seq<int>, i: nat, j: nat, written: seq<byte>)
    requires |pixels| == width * height && ReadsInBounds(width, height) && i < width && j < height
    requires PackProgress(pixels, width, height, quantized, encode, visited, i, j, written)
    ensures 0 <= VisitIndex(width, i, j) < |pixels|
    ensures |written| + BytesPerPixel(quantized) <= width * height * 3 * BytesPerChannel(quantized)
    ensures PackProgress(pixels, width, height, quantized, encode, visited + [VisitIndex(width, i, j)], i, j + 1,
                         written + PixelBytes(pixels[VisitIndex(width, i, j)], quantized, encode))
  {
    var n := BytesPerPixel(quantized);
    var index := VisitIndex(width, i, j);
    VisitIndexInBounds(width, height, i, j);
    VisitOrderLength(width, height, i);
    EncodedLength(Gather(pixels, visited), quantized, encode);
    assert |written| == (i * height + j) * n;
    StepFits(width, height, i, j, n);
    Associate(width * height, 3, BytesPerChannel(quantized));
    GatherSnoc(pixels, visited, index);
    EncodedSnoc(Gather(pixels, visited), pixels[index], quantized, encode);
    RowVisitsSnoc(width, i, j);
  }

  /** The end of an outer pass is the start of the next one. */
  lemma PackRowDone(pixels: seq<int32>, width: nat, height: nat, quantized: bool, encode: real -> Word,
                    visited: seq<int>, i: nat, written: seq<byte>)
    requires i < width
    requires PackProgress(pixels, width, height, quantized, encode, visited, i, height, written)
    ensures PackProgress(pixels, width, height, quantized, encode, visited, i + 1, 0, written)
  {
    assert RowVisits(width, i + 1, 0) == [];
  }

  /** After the last outer pass the buffer is full and holds the packed tensor. */
  lemma PackDone(pixels: seq<int32>, width: nat, height: nat, quantized: bool, encode: real -> Word,
                 visited: seq<int>, written: seq<byte>)
    requires |pixels| == width * height && ReadsInBounds(width, height)
    requires PackProgress(pixels, width, height, quantized, encode, visited, width, 0, written)
    ensures |written| == width * height * 3 * BytesPerChannel(quantized)
    ensures written == Packed(pixels, width, height, quantized, encode)
  {
    assert RowVisits(width, width, 0) == [];
    assert visited == VisitOrder(width, height, width);
    PackedUnfold(pixels, width, height, quantized, encode);
    PackedSize(pixels, width, height, quantized, encode);
  }

  lemma RowVisitsSnoc(width: int, i: int, n: nat)
    ensures RowVisits(width, i, n + 1) == RowVisits(width, i, n) + [VisitIndex(width, i, n)]
  {
    var a, b := RowVisits(width, i, n + 1), RowVisits(width, i, n) + [VisitIndex(width, i, n)];
    assert |a| == |b|;
    forall k | 0 <= k < |a| ensures a[k] == b[k] {
    }
  }

  /** Writing pixel `(i, j)` fits in the buffer: the pixels visited so far and
      this one take at most the `width * height` pixels' bytes. */
  lemma StepFits(width: nat, height: nat, i: nat, j: nat, n: nat)
    requires i < width && j < height
    ensures (i * height + j) * n + n <= width * height * n
  {
    MulLeq(i + 1, width, height);
    MulLeq(i * height + j + 1, width * height, n);
    assert (i * height + j + 1) * n == (i * height + j) * n + n;
  }

  lemma MulSucc(a: nat, n: nat)
    ensures (a + 1) * n == a * n + n
  {
  }

  lemma Associate(a: int, b: int, c: int)
    ensures a * b * c == a * (b * c)
  {
  }

  lemma GatherSnoc(pixels: seq<int32>, order: seq<int>, index: int)
    requires forall k :: 0 <= k < |order| ==> 0 <= order[k] < |pixels|
    requires 0 <= index < |pixels|
    ensures Gather(pixels, order + [index]) == Gather(pixels, order) + [pixels[index]]
  {
  }

  lemma EncodedSnoc(ps: seq<int32>, p: int32, quantized: bool, encode: real -> Word)
    ensures Encoded(ps + [p], quantized, encode) == Encoded(ps, quantized, encode) + PixelBytes(p, quantized, encode)
  {
    assert (ps + [p])[..|ps|] == ps;
  }
}
