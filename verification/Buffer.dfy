/** The growing byte buffer with a read position that every other part reads and writes. */
module ByteBuffers {
  import opened Common

  /** The size of the block in which the codecs collect their output. */
  const OUT_BUFFER_SIZE := 2048

  /** Stores a byte in the output block, which goes to `dest` once it is full. */
  method Emit(outBuffer: array<byte>, outPos: nat, b: byte, dest: Buffer) returns (next: nat)
    requires outBuffer.Length == OUT_BUFFER_SIZE && outPos < OUT_BUFFER_SIZE && dest.Valid()
    modifies outBuffer, dest`data
    ensures dest.Valid() && next < OUT_BUFFER_SIZE
    ensures dest.data + outBuffer[..next] == old(dest.data + outBuffer[..outPos]) + [b]
  {
    outBuffer[outPos] := b;
    next := outPos + 1;
    ghost var whole := outBuffer[..next];
    assert whole == old(outBuffer[..outPos]) + [b];
    if next == outBuffer.Length {
      dest.Write(outBuffer[..]);
      next := 0;
      assert outBuffer[..] == whole;
    }
  }

  class Buffer {
    var data: seq<byte>
    var readIndex: nat

    ghost predicate Valid()
      reads this
    {
      readIndex <= |data|
    }

    constructor ()
      ensures Valid() && data == [] && readIndex == 0
    {
      data, readIndex := [], 0;
    }

    method Clear()
      modifies this
      ensures Valid() && data == [] && readIndex == 0
    {
      data, readIndex := [], 0;
    }

    function Size(): nat
      reads this
    {
      |data|
    }

    function BytesRemaining(): (n: nat)
      requires Valid()
      reads this
      ensures n == |data[readIndex..]|
    {
      Size() - readIndex
    }

    method SetReadpos(pos: nat)
      modifies this`readIndex
      ensures Valid() && readIndex == Min(pos, |data|)
    {
      if pos <= |data| {
        readIndex := pos;
      } else {
        readIndex := Size();
      }
    }

    method Write(input: seq<byte>)
      requires Valid()
      modifies this`data
      ensures Valid() && data == old(data) + input
    {
      data := data + input;
    }

    /** Copies the next bytes into `out` as far as there are any; the rest of `out` keeps its content. */
    method Read(out: array<byte>, size: nat) returns (count: nat)
      requires Valid() && size <= out.Length
      modifies this`readIndex, out
      ensures Valid() && count == Min(size, old(BytesRemaining())) && readIndex == old(readIndex) + count
      ensures out[..count] == data[old(readIndex)..readIndex]
      ensures out[count..] == old(out[count..])
    {
      count := Min(size, BytesRemaining());
      forall i | 0 <= i < count {
        out[i] := data[readIndex + i];
      }
      readIndex := readIndex + count;
    }

    method ReadString(size: nat) returns (s: seq<byte>)
      requires Valid()
      modifies this`readIndex
      ensures Valid() && readIndex == old(readIndex) + |s|
      ensures |s| == Min(size, old(BytesRemaining())) && s == data[old(readIndex)..readIndex]
    {
      var count := Min(size, BytesRemaining());
      s := data[readIndex..][..count];
      readIndex := readIndex + count;
    }
  }
}
