/** Value types shared by the interpreter holder and the detection adapter:
    an optional value (Java's nullable reference), the range of a Java `int`,
    and Java's narrowing conversion from a floating-point value to `int`. */
module Base {

  /** A Java reference that may be null. */
  datatype Option<+T> = None | Some(value: T)

  const IntMin: int := -0x8000_0000
  const IntMax: int := 0x7FFF_FFFF

  /** A Java `int`. */
  newtype int32 = x: int | IntMin <= x <= IntMax

  /** The bit pattern of one byte in a byte buffer, read as unsigned. */
  newtype byte = x: int | 0 <= x < 0x100

  /** Four bytes, the width of a Java `float` in a byte buffer. */
  type Word = s: seq<byte> | |s| == 4 witness [0, 0, 0, 0]

  /** Java's `(int) x` for a float `x` (JLS 5.1.3): rounds toward zero and
      saturates at the bounds of `int`. */
  function FloatToInt(x: real): (r: int)
    ensures IntMin <= r <= IntMax
    ensures 0.0 <= x < IntMax as real ==> r as real <= x < r as real + 1.0
    ensures IntMin as real < x <= 0.0 ==> r as real - 1.0 < x <= r as real
    ensures x >= IntMax as real ==> r == IntMax
    ensures x <= IntMin as real ==> r == IntMin
  {
    if x >= IntMax as real then IntMax
    else if x <= IntMin as real then IntMin
    else if x >= 0.0 then x.Floor
    else -((-x).Floor)
  }

  /** Truncation toward zero keeps the sign and never increases the magnitude. */
  lemma FloatToIntTowardZero(x: real)
    ensures x >= 0.0 ==> 0 <= FloatToInt(x) && FloatToInt(x) as real <= x
    ensures x <= 0.0 ==> FloatToInt(x) <= 0 && x <= FloatToInt(x) as real
    ensures x <= -1.0 ==> FloatToInt(x) < 0
  {
  }

  function Min(a: int, b: int): (r: int)
    ensures r <= a && r <= b
    ensures r == a || r == b
  {
    if a <= b then a else b
  }
}
