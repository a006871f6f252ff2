/** The part of `java.nio.ByteBuffer` the detection adapter uses: a fixed
    block of bytes with a write cursor. */
module Nio {
  import opened Base

  class ByteBuffer {
    const data: array<byte>
    var position: nat

    ghost predicate Valid()
      reads this
    {
      position <= data.Length
    }

    /** `ByteBuffer.allocateDirect`: a zero-filled buffer with the cursor at 0. */
    constructor Allocate(capacity: nat)
      ensures Valid() && fresh(data)
      ensures data.Length == capacity && position == 0
      ensures forall k :: 0 <= k < capacity ==> data[k] == 0
    {
      data := new byte[capacity](_ => 0);
      position := 0;
    }

    /** Moves the cursor back to the start; the bytes stay as they are. */
    method Rewind()
      modifies this
      ensures Valid() && position == 0
    {
      position := 0;
    }

    /** Relative `put`: writes one byte at the cursor and advances it. A full
        buffer would throw `BufferOverflowException`; callers never reach it. */
    method Put(b: byte)
      requires position < data.Length
      modifies this, data
      ensures Valid() && position == old(position) + 1
      ensures data[..] == old(data[..])[old(position) := b]
      ensures data[..position] == old(data[..position]) + [b]
    {
      data[position] := b;
      position := position + 1;
    }

    /** Relative `putFloat`: writes the four bytes `encode` gives for `x` (the
        binary32 rounding of `x` in the platform's byte order) and advances the
        cursor by four. */
    method PutFloat(x: real, encode: real -> Word)
      requires position + 4 <= data.Length
      modifies this, data
      ensures Valid() && position == old(position) + 4
      ensures data[..] == old(data[..])[..old(position)] + encode(x) + old(data[..])[old(position) + 4..]
      ensures data[..position] == old(data[..position]) + encode(x)
    {
      var w := encode(x);
      data[position] := w[0];
      data[position + 1] := w[1];
      data[position + 2] := w[2];
      data[position + 3] := w[3];
      position := position + 4;
    }
  }
}
