/** The table-driven, bit-buffered codec, proved against the block-wise reading of `Base64`. */
module Base64Codecs {
  import opened Common
  import opened ByteBuffers
  import opened Base64

  /** Where a word is cut at a bit position: `/` shifts right, `%` masks. */
  lemma Cut(w: nat, high: nat, unit: nat, low: nat)
    requires unit in {4, 16, 64, 256, 1024, 4096, 262144} && w == high * unit + low && low < unit
    ensures w / unit == high && w % unit == low
  {
  }

  /** The bits of three bytes, cut into sextets by shift and mask. */
  lemma WordSextets(b0: byte, b1: byte, b2: byte)
    ensures var w: nat := b0 * 65536 + b1 * 256 + b2;
            && w / 262144 % 64 == b0 / 4 && w / 4096 % 64 == b0 % 4 * 16 + b1 / 16
            && w / 64 % 64 == b1 % 16 * 4 + b2 / 64 && w % 64 == b2 % 64
  {
    var w: nat := b0 * 65536 + b1 * 256 + b2;
    var q0, r0, q1, r1, q2, r2 := b0 / 4, b0 % 4, b1 / 16, b1 % 16, b2 / 64, b2 % 64;
    Cut(w, q0, 262144, r0 * 65536 + b1 * 256 + b2);
    Cut(w, b0 * 16 + q1, 4096, r1 * 256 + b2);
    Cut(w, b0 * 1024 + b1 * 4 + q2, 64, r2);
    Cut(b0 * 16 + q1, q0, 64, r0 * 16 + q1);
    Cut(b0 * 1024 + b1 * 4 + q2, b0 * 16 + q1, 64, r1 * 4 + q2);
    Cut(w, b0 * 1024 + b1 * 4 + q2, 64, r2);
    Cut(q0, 0, 64, q0);
  }

  lemma HalfWordSextets(b0: byte, b1: byte)
    ensures var w: nat := b0 * 256 + b1;
            w / 1024 % 64 == b0 / 4 && w / 16 % 64 == b0 % 4 * 16 + b1 / 16 && w * 4 % 64 == b1 % 16 * 4
  {
    var w: nat := b0 * 256 + b1;
    var q0, r0, q1, r1 := b0 / 4, b0 % 4, b1 / 16, b1 % 16;
    Cut(w, q0, 1024, r0 * 256 + b1);
    Cut(w, b0 * 16 + q1, 16, r1);
    Cut(q0, 0, 64, q0);
    Cut(b0 * 16 + q1, q0, 64, r0 * 16 + q1);
    Cut(w * 4, b0 * 16 + q1, 64, r1 * 4);
  }

  /** The branchless counter: a fourth character adds 4 to the count and starts a new block. */
  lemma QuadCounter(quadPos: bv8)
    requires quadPos < 4
    ensures ((quadPos + 1) & 0x04) as nat == (if quadPos == 3 then 4 else 0)
    ensures ((quadPos + 1) & 0x03) as nat == (if quadPos == 3 then 0 else quadPos as nat + 1) && (quadPos + 1) & 0x03 < 4
  {
  }

  // ----- the bit buffer -----

  /** How many bits of an unfinished block are still in the bit buffer. */
  function BitsFor(n: nat): nat {
    if n == 1 then 6 else if n == 2 then 4 else if n == 3 then 2 else 0
  }

  function Pow2(bits: nat): nat {
    if bits == 0 then 1 else if bits == 2 then 4 else if bits == 4 then 16 else 64
  }

  /** The low bits of the buffer are the bits of the block that have not become a byte yet. */
  ghost predicate Holds(bitBuffer: nat, bits: nat, block: Block) {
    && |block| < 4 && bitBuffer < 65536 && bits == BitsFor(|block|)
    && (|block| == 1 ==> bitBuffer % 64 == block[0])
    && (|block| == 2 ==> bitBuffer % 16 == block[1] % 16)
    && (|block| == 3 ==> bitBuffer % 4 == block[2] % 4)
  }

  /** `bitBuffer << 6 | v` in 16 bits: the oldest bits fall out at the top. */
  function Shifted(bitBuffer: nat, v: sextet): (r: nat)
    ensures r < 65536
  {
    (bitBuffer * 64 + v) % 65536
  }

  // Shifting keeps the bits that are held; below them comes the new character.

  lemma ShiftedKeepsNone(bitBuffer: nat, v: sextet)
    requires bitBuffer < 65536
    ensures Shifted(bitBuffer, v) % 64 == v
  {
    Cut(Shifted(bitBuffer, v), bitBuffer - 1024 * ((bitBuffer * 64 + v) / 65536), 64, v);
  }

  lemma ShiftedKeeps2(bitBuffer: nat, v: sextet)
    requires bitBuffer < 65536
    ensures Shifted(bitBuffer, v) % 256 == bitBuffer % 4 * 64 + v
  {
    Cut(Shifted(bitBuffer, v), bitBuffer / 4 - 256 * ((bitBuffer * 64 + v) / 65536), 256, bitBuffer % 4 * 64 + v);
  }

  lemma ShiftedKeeps4(bitBuffer: nat, v: sextet)
    requires bitBuffer < 65536
    ensures Shifted(bitBuffer, v) % 1024 == bitBuffer % 16 * 64 + v
  {
    Cut(Shifted(bitBuffer, v), bitBuffer / 16 - 64 * ((bitBuffer * 64 + v) / 65536), 1024, bitBuffer % 16 * 64 + v);
  }

  lemma ShiftedKeeps6(bitBuffer: nat, v: sextet)
    requires bitBuffer < 65536
    ensures Shifted(bitBuffer, v) % 4096 == bitBuffer % 64 * 64 + v
  {
    Cut(Shifted(bitBuffer, v), bitBuffer / 64 - 16 * ((bitBuffer * 64 + v) / 65536), 4096, bitBuffer % 64 * 64 + v);
  }

  /** The first byte is ready with the second character, ... */
  lemma FirstByte(bitBuffer: nat, x0: sextet, v: sextet)
    requires bitBuffer < 65536 && bitBuffer % 64 == x0
    ensures Shifted(bitBuffer, v) % 16 == v % 16 && Shifted(bitBuffer, v) / 16 % 256 == Byte0(x0, v)
  {
    var shifted := Shifted(bitBuffer, v);
    ShiftedKeeps6(bitBuffer, v);
    var q := shifted / 4096;
    Cut(shifted, 256 * q + 4 * x0 + v / 16, 16, v % 16);
    Cut(256 * q + 4 * x0 + v / 16, q, 256, 4 * x0 + v / 16);
  }

  /** ... the second with the third ... */
  lemma SecondByte(bitBuffer: nat, x1: sextet, v: sextet)
    requires bitBuffer < 65536 && bitBuffer % 16 == x1 % 16
    ensures Shifted(bitBuffer, v) % 4 == v % 4 && Shifted(bitBuffer, v) / 4 % 256 == Byte1(x1, v)
  {
    var shifted := Shifted(bitBuffer, v);
    ShiftedKeeps4(bitBuffer, v);
    var q := shifted / 1024;
    Cut(shifted, 256 * q + 16 * (x1 % 16) + v / 4, 4, v % 4);
    Cut(256 * q + 16 * (x1 % 16) + v / 4, q, 256, 16 * (x1 % 16) + v / 4);
  }

  /** ... and the third with the fourth. */
  lemma ThirdByte(bitBuffer: nat, x2: sextet, v: sextet)
    requires bitBuffer < 65536 && bitBuffer % 4 == x2 % 4
    ensures Shifted(bitBuffer, v) % 256 == Byte2(x2, v)
  {
    ShiftedKeeps2(bitBuffer, v);
  }

  /** One more character: the buffer again holds what is left, and what was ready is the next byte. */
  lemma BitStep(bitBuffer: nat, bits: nat, block: Block, v: sextet)
    requires Holds(bitBuffer, bits, block)
    ensures var shifted := Shifted(bitBuffer, v);
            if bits + 6 < 8 then
              Holds(shifted, bits + 6, block + [v]) && BlockBytes(block + [v]) == BlockBytes(block)
            else
              && Holds(shifted, bits - 2, Next(v, block))
              && BlockBytes(block + [v]) == BlockBytes(block) + [shifted / Pow2(bits - 2) % 256]
  {
    if |block| == 0 {
      ShiftedKeepsNone(bitBuffer, v);
    } else if |block| == 1 {
      FirstByte(bitBuffer, block[0], v);
    } else if |block| == 2 {
      SecondByte(bitBuffer, block[1], v);
    } else {
      ThirdByte(bitBuffer, block[2], v);
    }
  }

  class Base64Codec {
    const baseValues: array<byte>

    /** The table agrees with the alphabet for all characters of ASCII text, and the terminator. */
    ghost predicate Valid()
      reads baseValues
    {
      baseValues.Length == 256 && forall c :: 0 <= c < 128 ==> baseValues[c] == ValueOf(c)
    }

    constructor ()
      ensures Valid() && fresh(baseValues)
    {
      var table := new byte[256];
      for i := 0 to 255
        invariant forall c :: 0 <= c < i ==> table[c] == BV_INVALID
      {
        table[i] := BV_INVALID;
      }
      for i := 0 to 64
        invariant forall c :: 0 <= c < 128 ==>
          table[c] == if ValueOf(c) < i && c != '-' as int && c != '_' as int then ValueOf(c) else BV_INVALID
      {
        table[BaseChar(i)] := i;
      }
      table['-' as int] := 0x3e;
      table['_' as int] := 0x3f;
      table['\n' as int] := BV_WHITESPACE;
      table['\r' as int] := BV_WHITESPACE;
      table['=' as int] := BV_PADDING;
      table[0] := BV_END;
      baseValues := table;
    }

    method EncodeTo(src: seq<byte>, dest: array<Ascii>)
      requires dest.Length == (|src| + 2) / 3 * 4
      modifies dest
      ensures dest[..] == Encode(src)
    {
      var i, j := EncodeBigSteps(src, dest);
      if i < |src| {
        EncodeTail(src, i, dest, j);
        assert dest[..j + 4] == dest[..];
      } else {
        assert dest[..j] == dest[..];
      }
    }

    static method EncodeBigSteps(src: seq<byte>, dest: array<Ascii>) returns (i: nat, j: nat)
      requires dest.Length == (|src| + 2) / 3 * 4
      modifies dest
      ensures i == |src| / 3 * 3 && j == |src| / 3 * 4
      ensures Encode(src) == dest[..j] + EncodeFrom(src, i)
    {
      i, j := 0, 0;
      var bigStepEnd := |src| / 3 * 3;
      ghost var steps, step := |src| / 3, 0;
      while i != bigStepEnd
        decreases bigStepEnd - i
        invariant step <= steps && i == 3 * step && j == 4 * step
        invariant Encode(src) == dest[..j] + EncodeFrom(src, i)
      {
        EncodeThree(src, i, dest, j);
        i, j, step := i + 3, j + 4, step + 1;
      }
    }

    /** One round of the big-step loop. */
    static method EncodeThree(src: seq<byte>, i: nat, dest: array<Ascii>, j: nat)
      requires i + 3 <= |src| && j + 4 <= dest.Length
      modifies dest
      ensures dest[..j + 4] + EncodeFrom(src, i + 3) == old(dest[..j]) + EncodeFrom(src, i)
    {
      var b0: nat, b1: nat, b2: nat := src[i], src[i + 1], src[i + 2];
      var b := b0 * 65536 + b1 * 256 + b2;
      WordSextets(b0, b1, b2);
      ghost var done, block, rest := dest[..j], EncodeBlock(src[i..i + 3]), EncodeFrom(src, i + 3);
      assert done + (block + rest) == (done + block) + rest;
      Put(dest, j, BaseChar(b / 262144 % 64), BaseChar(b / 4096 % 64), BaseChar(b / 64 % 64), BaseChar(b % 64));
      assert block == dest[..j + 4][j..];
    }

    /** The one or two bytes left in the end are written with padding. */
    static method EncodeTail(src: seq<byte>, i: nat, dest: array<Ascii>, j: nat)
      requires 1 <= |src| - i <= 2 && j + 4 <= dest.Length
      modifies dest
      ensures dest[..j + 4] == old(dest[..j]) + EncodeFrom(src, i)
    {
      ghost var block := EncodeBlock(src[i..]);
      assert EncodeFrom(src, i) == block + [];
      if |src| - i == 1 {
        var b: nat := src[i];
        Cut(b / 4, 0, 64, b / 4);
        Cut(b * 16, b / 4, 64, b % 4 * 16);
        Put(dest, j, BaseChar(b / 4 % 64), BaseChar(b * 16 % 64), '=' as int, '=' as int);
      } else {
        var b0: nat, b1: nat := src[i], src[i + 1];
        var b := b0 * 256 + b1;
        HalfWordSextets(b0, b1);
        Put(dest, j, BaseChar(b / 1024 % 64), BaseChar(b / 16 % 64), BaseChar(b * 4 % 64), '=' as int);
      }
      assert block == dest[..j + 4][j..];
    }

    static method Put(dest: array<Ascii>, at: nat, c0: Ascii, c1: Ascii, c2: Ascii, c3: Ascii)
      requires at + 4 <= dest.Length
      modifies dest
      ensures dest[..at + 4] == old(dest[..at]) + [c0, c1, c2, c3]
    {
      dest[at], dest[at + 1], dest[at + 2], dest[at + 3] := c0, c1, c2, c3;
    }

    method ReadBase64(src: seq<byte>) returns (text: Option<seq<Ascii>>)
      requires |src| < SIZE_VALUES
      ensures text == if (|src| + 2) / 3 * 4 < SIZE_VALUES then Some(Encode(src)) else None
    {
      OverflowTestExact(|src|);
      var resultLen := ResultLength(|src|);
      if resultLen < |src| {
        return None;  // throw std::length_error
      }
      var result := new Ascii[resultLen];
      EncodeTo(src, result);
      return Some(result[..]);
    }

    /** Reads from the buffer what remains of `len` bytes; a text that is too long leaves it alone. */
    method ReadBase64FromBuffer(buf: Buffer, len: nat) returns (text: Option<seq<Ascii>>)
      requires buf.Valid() && |buf.data| < SIZE_VALUES
      modifies buf`readIndex
      ensures buf.Valid()
      ensures var n := Min(len, old(buf.BytesRemaining()));
              && (text.None? <==> (n + 2) / 3 * 4 >= SIZE_VALUES)
              && (text.None? ==> buf.readIndex == old(buf.readIndex))
              && (text.Some? ==> buf.readIndex == old(buf.readIndex) + n && text.value == Encode(buf.data[old(buf.readIndex)..buf.readIndex]))
    {
      var n := Min(len, buf.BytesRemaining());
      var src := buf.data[buf.readIndex..buf.readIndex + n];
      text := ReadBase64(src);
      if text.Some? {
        buf.SetReadpos(buf.readIndex + n);
      }
    }

    /**
     Scans up to the terminator. `return -3` on misplaced padding means true. When the scan gets to
     the terminator, `bytes` falls short of the decoded length by the bytes of an unfinished block.
     */
    method Validate(s: seq<Ascii>) returns (ok: bool, end: nat, bytes: nat)
      requires Valid()
      ensures ok <==> !Refused(s)
      ensures match ScanFrom(s, 0, 0)
              case Terminated(n) => end == |s| && |Decode(s)| == bytes + LastBlockBytes(n)
              case BadPadding(at) => end == at && bytes == 0
              case InvalidChar(at) => end == at && bytes == 0
    {
      bytes := 0;
      var quadChars: nat, extraBytes: nat := 0, 0;
      var quadPos: bv8 := 0;
      end := 0;
      DecodeLength(s, 0, []);
      while true
        invariant end <= |s| && quadPos < 4
        invariant ScanFrom(s, 0, 0) == ScanFrom(s, end, quadPos as nat)
        invariant |Decode(s)| == quadChars / 4 * 3 + extraBytes + LengthFrom(s, end, quadPos as nat)
        invariant quadChars % 4 == 0 && bytes == 0
        decreases |s| - end
      {
        var charval := baseValues[At(s, end)];
        if charval < 0x40 {
          QuadCounter(quadPos);
          quadPos := quadPos + 1;
          quadChars := quadChars + (quadPos & 0x04) as nat;
          quadPos := quadPos & 0x03;
        } else if charval == BV_WHITESPACE {
        } else if charval == BV_PADDING {
          if quadPos == 1 {
            return true, end, bytes;
          }
          if quadPos == 2 {
            extraBytes := extraBytes + 1;
          }
          if quadPos == 3 {
            extraBytes := extraBytes + 2;
          }
          quadPos := 0;
        } else if charval == BV_END {
          break;
        } else {
          return false, end, bytes;
        }
        end := end + 1;
      }
      bytes := quadChars / 4 * 3 + extraBytes;
      return true, end, bytes;
    }

    /** One character of the text: the bytes that are ready go to the output, the block goes on or ends. */
    static method Feed(charval: byte, bitBuffer: nat, bitsInBuffer: nat, outBuffer: array<byte>, outPos: nat, dest: Buffer,
                       ghost block: Block, ghost before: seq<byte>)
      returns (newBuffer: nat, newBits: nat, newPos: nat)
      requires Holds(bitBuffer, bitsInBuffer, block)
      requires outPos < OUT_BUFFER_SIZE == outBuffer.Length && dest.Valid()
      requires dest.data + outBuffer[..outPos] == before + BlockBytes(block)
      modifies outBuffer, dest`data
      ensures Holds(newBuffer, newBits, Next(charval, block))
      ensures newPos < OUT_BUFFER_SIZE && dest.Valid()
      ensures dest.data + outBuffer[..newPos] == before + Bytes(Ended(charval, block)) + BlockBytes(Next(charval, block))
    {
      newBuffer, newBits, newPos := bitBuffer, bitsInBuffer, outPos;
      BytesOfEnded(charval, block, before);
      if charval < 0x40 {
        BitStep(bitBuffer, bitsInBuffer, block, charval);
        newBuffer := Shifted(bitBuffer, charval);
        newBits := bitsInBuffer + 6;
        if newBits >= 8 {
          newBits := newBits - 8;
          newPos := Emit(outBuffer, outPos, newBuffer / Pow2(newBits) % 256, dest);
        }
      } else if charval == BV_WHITESPACE {
      } else if charval == BV_PADDING {
        newBits := 0;
      }
    }

    static lemma BytesOfEnded(charval: byte, block: Block, before: seq<byte>)
      requires |block| < 4
      ensures before + Bytes(Ended(charval, block)) + BlockBytes(Next(charval, block)) ==
                before + if charval < 0x40 then BlockBytes(block + [charval]) else BlockBytes(block)
      ensures forall b: byte :: before + (BlockBytes(block) + [b]) == (before + BlockBytes(block)) + [b]
    {
      var ended := Ended(charval, block);
      if ended != [] {
        assert Bytes(ended) == BlockBytes(ended[0]) + Bytes([]);
      }
    }

    /** Appends what the text stands for, or refuses it and changes nothing. */
    method WriteBase64(s: seq<Ascii>, dest: Buffer) returns (code: int)
      requires Valid() && dest.Valid()
      modifies dest`data
      ensures dest.Valid()
      ensures code == if Refused(s) then -2 else 1
      ensures dest.data == old(dest.data) + if Refused(s) then [] else Decode(s)
    {
      var ok, end, bytes := Validate(s);
      if !ok {
        return -2;
      }
      DecodeTo(s, dest);
      return 1;
    }

    /** Writing what was read appends the bytes that were read, unless their text would be too long. */
    method ReadThenWrite(src: seq<byte>, dest: Buffer) returns (code: int)
      requires Valid() && dest.Valid() && |src| < SIZE_VALUES
      modifies dest`data
      ensures dest.Valid()
      ensures code == if (|src| + 2) / 3 * 4 < SIZE_VALUES then 1 else 0
      ensures dest.data == old(dest.data) + if code == 1 then src else []
    {
      var text := ReadBase64(src);
      if text.None? {
        return 0;
      }
      EncodingIsAccepted(src);
      DecodeEncode(src);
      code := WriteBase64(text.value, dest);
    }

    /** The decoding loop of writeBase64, which skips whatever has no value. */
    method DecodeTo(s: seq<Ascii>, dest: Buffer)
      requires Valid() && dest.Valid()
      modifies dest`data
      ensures dest.Valid() && dest.data == old(dest.data) + Decode(s)
    {
      var outBuffer := new byte[OUT_BUFFER_SIZE];
      var outPos: nat, bitBuffer: nat, bitsInBuffer: nat := 0, 0, 0;
      var pStr := 0;
      ghost var block: Block, finished: seq<byte> := [], dest.data;
      ghost var total := dest.data + Decode(s);
      while true
        invariant pStr <= |s| && outPos < OUT_BUFFER_SIZE == outBuffer.Length && dest.Valid()
        invariant Holds(bitBuffer, bitsInBuffer, block)
        invariant total == finished + Bytes(BlocksFrom(s, pStr, block))
        invariant dest.data + outBuffer[..outPos] == finished + BlockBytes(block)
        decreases |s| - pStr
      {
        var charval := baseValues[At(s, pStr)];
        if charval == BV_END {
          break;
        }
        bitBuffer, bitsInBuffer, outPos := Feed(charval, bitBuffer, bitsInBuffer, outBuffer, outPos, dest, block, finished);
        DecodeStep(s, pStr, block, finished);
        finished := finished + Bytes(Ended(charval, block));
        block := Next(charval, block);
        pStr := pStr + 1;
      }
      LastBlock(s, block);
      dest.Write(outBuffer[..outPos]);
    }

    static lemma DecodeStep(s: seq<Ascii>, i: nat, block: Block, finished: seq<byte>)
      requires i < |s| && |block| < 4
      ensures var v := ValueOf(s[i]);
              finished + Bytes(BlocksFrom(s, i, block)) ==
                (finished + Bytes(Ended(v, block))) + Bytes(BlocksFrom(s, i + 1, Next(v, block)))
    {
      var v := ValueOf(s[i]);
      BytesConcat(Ended(v, block), BlocksFrom(s, i + 1, Next(v, block)));
    }

    static lemma LastBlock(s: seq<Ascii>, block: Block)
      requires |block| < 4
      ensures Bytes(BlocksFrom(s, |s|, block)) == BlockBytes(block)
    {
      if block != [] {
        assert Bytes([block]) == BlockBytes(block) + Bytes([]);
      }
    }
  }
}
