/** Hexadecimal text, and the codec that looks up two characters at a time in a 64 Ki table. */
module HexCodecs {
  import opened Common
  import opened ByteBuffers

  /** A character of a C string, as unsigned; the terminator is not part of the sequence. */
  type CChar = c: int | 0 < c < 256 witness 48

  /** The number of values of the 32-bit library's `size_t`. */
  const SIZE_VALUES := 0x1_0000_0000

  function HexNibble(n: nat): CChar
    requires n < 16
  {
    if n < 10 then '0' as int + n else 'a' as int + (n - 10)
  }

  /** getHexValueSlow: the value of a digit, 0 for every other character. */
  function HexValue(c: nat): (v: nat)
    ensures v < 16
  {
    if '0' as int <= c <= '9' as int then c - '0' as int
    else if 'a' as int <= c <= 'f' as int then c - 'a' as int + 10
    else if 'A' as int <= c <= 'F' as int then c - 'A' as int + 10
    else 0
  }

  predicate IsHex(c: nat) {
    '0' as int <= c <= '9' as int || 'a' as int <= c <= 'f' as int || 'A' as int <= c <= 'F' as int
  }

  predicate Accepted(s: seq<CChar>) {
    |s| % 2 == 0 && forall i :: 0 <= i < |s| ==> IsHex(s[i])
  }

  /** Two characters for every byte, the high digit first. */
  function Encode(b: seq<byte>): (s: seq<CChar>)
    ensures |s| == 2 * |b|
  {
    seq(2 * |b|, i requires 0 <= i < 2 * |b| => HexNibble(if i % 2 == 0 then b[i / 2] / 16 else b[i / 2] % 16))
  }

  /** What the pair of characters at position `at` stands for. */
  function PairAt(s: seq<CChar>, at: nat): byte
    requires at + 1 < |s|
  {
    HexValue(s[at]) * 16 + HexValue(s[at + 1])
  }

  /** Digit by digit: what the first n pairs of characters stand for. */
  function DecodePairs(s: seq<CChar>, n: nat): (b: seq<byte>)
    requires 2 * n <= |s|
    ensures |b| == n
  {
    seq(n, i requires 0 <= i < n => PairAt(s, 2 * i))
  }

  lemma OnePairMore(s: seq<CChar>, n: nat)
    requires 2 * n + 1 < |s|
    ensures DecodePairs(s, n + 1) == DecodePairs(s, n) + [PairAt(s, 2 * n)]
  {
  }

  function Decode(s: seq<CChar>): (b: seq<byte>)
    requires |s| % 2 == 0
    ensures |b| == |s| / 2
  {
    DecodePairs(s, |s| / 2)
  }

  function Lower(c: CChar): CChar {
    if 'A' as int <= c <= 'Z' as int then c + 32 else c
  }

  lemma DecodeEncode(b: seq<byte>)
    ensures Accepted(Encode(b)) && Decode(Encode(b)) == b
  {
    var s := Encode(b);
    forall i | 0 <= i < |b|
      ensures Decode(s)[i] == b[i]
    {
      assert s[2 * i] == HexNibble(b[i] / 16) && s[2 * i + 1] == HexNibble(b[i] % 16);
    }
  }

  lemma NibbleOfValue(c: CChar)
    requires IsHex(c)
    ensures HexNibble(HexValue(c)) == Lower(c)
  {
  }

  /** Encoding what an accepted text stands for gives the text in lower case. */
  lemma EncodeDecode(s: seq<CChar>)
    requires Accepted(s)
    ensures Encode(Decode(s)) == seq(|s|, i requires 0 <= i < |s| => Lower(s[i]))
  {
    forall i | 0 <= i < |s|
      ensures Encode(Decode(s))[i] == Lower(s[i])
    {
      var k := i / 2;
      var high, low := HexValue(s[2 * k]), HexValue(s[2 * k + 1]);
      assert Decode(s)[k] == high * 16 + low;
      assert (high * 16 + low) / 16 == high && (high * 16 + low) % 16 == low;
      NibbleOfValue(s[i]);
    }
  }

  // ----- what a text means -----

  const DIGITS := "0123456789abcdef"

  /** The number that the first n characters denote in base 16, read from the left. */
  function Base16(s: seq<CChar>, n: nat): nat
    requires n <= |s|
  {
    if n == 0 then 0 else Base16(s, n - 1) * 16 + HexValue(s[n - 1])
  }

  /** The number that the first n bytes denote, the most significant byte first. */
  function Base256(b: seq<byte>, n: nat): nat
    requires n <= |b|
  {
    if n == 0 then 0 else Base256(b, n - 1) * 256 + b[n - 1]
  }

  lemma {:induction false} PairsDenoteBytes(s: seq<CChar>, b: seq<byte>, n: nat)
    requires 2 * n <= |s| && n <= |b|
    requires forall i :: 0 <= i < n ==> b[i] == HexValue(s[2 * i]) * 16 + HexValue(s[2 * i + 1])
    ensures Base16(s, 2 * n) == Base256(b, n)
  {
    if n > 0 {
      PairsDenoteBytes(s, b, n - 1);
      assert Base16(s, 2 * n) == Base16(s, 2 * n - 1) * 16 + HexValue(s[2 * n - 1]);
      assert Base16(s, 2 * n - 1) == Base16(s, 2 * n - 2) * 16 + HexValue(s[2 * n - 2]);
    }
  }

  /** A text and the bytes it is decoded to denote the same number, digit for digit and byte for byte. */
  lemma DecodeDenotes(s: seq<CChar>)
    requires Accepted(s)
    ensures |s| == 2 * |Decode(s)| && Base16(s, |s|) == Base256(Decode(s), |Decode(s)|)
  {
    PairsDenoteBytes(s, Decode(s), |s| / 2);
  }

  /** So do bytes and their text, which is written with lower-case digits. */
  lemma EncodeDenotes(b: seq<byte>)
    ensures Base16(Encode(b), 2 * |b|) == Base256(b, |b|)
    ensures forall k :: 0 <= k < 2 * |b| ==> Encode(b)[k] == DIGITS[HexValue(Encode(b)[k])] as int
  {
    var s := Encode(b);
    forall i | 0 <= i < |b|
      ensures b[i] == HexValue(s[2 * i]) * 16 + HexValue(s[2 * i + 1])
    {
      assert s[2 * i] == HexNibble(b[i] / 16) && s[2 * i + 1] == HexNibble(b[i] % 16);
    }
    PairsDenoteBytes(s, b, |b|);
    forall k | 0 <= k < 2 * |b|
      ensures s[k] == DIGITS[HexValue(s[k])] as int
    {
      NibbleIsDigit(if k % 2 == 0 then b[k / 2] / 16 else b[k / 2] % 16);
    }
  }

  lemma NibbleIsDigit(n: nat)
    requires n < 16
    ensures HexNibble(n) == DIGITS[n] as int && HexValue(HexNibble(n)) == n
  {
  }

  /** The value of a digit is its position among the digits, whatever its case; nothing else is a digit. */
  lemma HexValueIsPosition(c: CChar)
    ensures IsHex(c) <==> exists d :: 0 <= d < 16 && Lower(c) == DIGITS[d] as int
    ensures IsHex(c) ==> Lower(c) == DIGITS[HexValue(c)] as int
  {
    if IsHex(c) {
      NibbleOfValue(c);
      NibbleIsDigit(HexValue(c));
    }
  }

  /** The value of the two characters whose codes are the bytes of a 16-bit index, the low byte first. */
  function IndexValue(i: nat): byte
    requires i < 65536
  {
    HexValue(i % 256) * 16 + HexValue(i / 256)
  }

  lemma IndexOfPair(first: nat, second: nat)
    requires first < 256 && second < 256
    ensures first + 256 * second < 65536 && IndexValue(first + 256 * second) == HexValue(first) * 16 + HexValue(second)
  {
    assert (first + 256 * second) % 256 == first && (first + 256 * second) / 256 == second;
  }

  class HexCodec {
    const hexValue: array<byte>

    /** The table agrees with the evaluation of both digits, the first in the low byte of the index. */
    ghost predicate Valid()
      reads hexValue
    {
      hexValue.Length == 65536 && forall first, second :: 0 <= first < 256 && 0 <= second < 256 ==>
        hexValue[first + 256 * second] == HexValue(first) * 16 + HexValue(second)
    }

    /** The 16-bit index runs over all its values and ends where it wraps around. */
    constructor ()
      ensures Valid() && fresh(hexValue)
    {
      var table := new byte[65536];
      var i := 0;
      ghost var round := 0;
      while true
        invariant 0 <= round < 65536 && i == round
        invariant forall k :: 0 <= k < round ==> table[k] == IndexValue(k)
        decreases 65536 - round
      {
        assert (i + 1) % 65536 == if i == 65535 then 0 else i + 1;
        table[i] := IndexValue(i);
        i := (i + 1) % 65536;
        if i == 0 {
          break;
        }
        round := round + 1;
      }
      hexValue := table;
      new;
      forall first, second | 0 <= first < 256 && 0 <= second < 256
        ensures hexValue[first + 256 * second] == HexValue(first) * 16 + HexValue(second)
      {
        IndexOfPair(first, second);
      }
    }

    method EncodeTo(src: seq<byte>, dest: array<CChar>)
      requires dest.Length == 2 * |src|
      modifies dest
      ensures dest[..] == Encode(src)
    {
      for i := 0 to |src|
        invariant forall k :: 0 <= k < 2 * i ==> dest[k] == Encode(src)[k]
      {
        var c := src[i];
        dest[2 * i] := HexNibble(c / 16);
        dest[2 * i + 1] := HexNibble(c % 16);
      }
    }

    method Validate(s: seq<CChar>) returns (ok: bool, end: nat, bytes: nat)
      ensures ok <==> Accepted(s)
      ensures ok ==> end == |s| && bytes == |Decode(s)|
    {
      bytes := 0;
      end := 0;
      while end < |s|
        invariant end <= |s| && forall i :: 0 <= i < end ==> IsHex(s[i])
      {
        if !IsHex(s[end]) {
          return false, end, bytes;
        }
        end := end + 1;
      }
      if end % 2 != 0 {
        return false, end, bytes;
      }
      return true, end, end / 2;
    }

    /** The value of the pair of characters at position `at`. */
    method LookUp(s: seq<CChar>, at: nat) returns (b: byte)
      requires Valid() && at + 1 < |s|
      ensures b == PairAt(s, at)
    {
      var first: nat, second: nat := s[at], s[at + 1];
      b := hexValue[first + 256 * second];
    }

    method DecodeTo(src: seq<CChar>, dest: array<byte>)
      requires Valid() && |src| == 2 * dest.Length && dest != hexValue
      modifies dest
      ensures dest[..] == Decode(src)
    {
      var i, at := 0, 0;
      while at < |src|
        invariant at == 2 * i <= |src|
        invariant dest[..i] == DecodePairs(src, i)
      {
        OnePairMore(src, i);
        var b := LookUp(src, at);
        Put(dest, i, b);
        i, at := i + 1, at + 2;
      }
      assert dest[..i] == dest[..];
    }

    static method Put(dest: array<byte>, at: nat, b: byte)
      requires at < dest.Length
      modifies dest
      ensures dest[..at + 1] == old(dest[..at]) + [b]
    {
      dest[at] := b;
    }

    /** The overflow test fires exactly when the text is too long for a `size_t`. */
    method ReadHex(src: seq<byte>) returns (text: Option<seq<CChar>>)
      requires |src| < SIZE_VALUES
      ensures text == if 2 * |src| < SIZE_VALUES then Some(Encode(src)) else None
    {
      if |src| * 2 % SIZE_VALUES < |src| {
        return None;  // throw std::length_error
      }
      var result := new CChar[|src| * 2];
      EncodeTo(src, result);
      return Some(result[..]);
    }

    /** Reads from the buffer what remains of `len` bytes; a text that is too long leaves it alone. */
    method ReadHexFromBuffer(buf: Buffer, len: nat) returns (text: Option<seq<CChar>>)
      requires buf.Valid() && |buf.data| < SIZE_VALUES
      modifies buf`readIndex
      ensures buf.Valid()
      ensures var n := Min(len, old(buf.BytesRemaining()));
              && (text.None? <==> 2 * n >= SIZE_VALUES)
              && (text.None? ==> buf.readIndex == old(buf.readIndex))
              && (text.Some? ==> buf.readIndex == old(buf.readIndex) + n && text.value == Encode(buf.data[old(buf.readIndex)..buf.readIndex]))
    {
      var n := Min(len, buf.BytesRemaining());
      text := ReadHex(buf.data[buf.readIndex..buf.readIndex + n]);
      if text.Some? {
        buf.SetReadpos(buf.readIndex + n);
      }
    }

    /** Appends what the text stands for, or refuses it and changes nothing. */
    method WriteHex(s: seq<CChar>, dest: Buffer) returns (code: int)
      requires Valid() && dest.Valid()
      modifies dest`data
      ensures dest.Valid()
      ensures code == if Accepted(s) then 1 else -2
      ensures dest.data == old(dest.data) + if Accepted(s) then Decode(s) else []
    {
      var ok, end, bytes := Validate(s);
      if !ok {
        return -2;
      }
      AppendPairs(s, dest);
      return 1;
    }

    /** Writing what was read appends the bytes that were read, unless their text would be too long. */
    method ReadThenWrite(src: seq<byte>, dest: Buffer) returns (code: int)
      requires Valid() && dest.Valid() && |src| < SIZE_VALUES
      modifies dest`data
      ensures dest.Valid()
      ensures code == if 2 * |src| < SIZE_VALUES then 1 else 0
      ensures dest.data == old(dest.data) + if code == 1 then src else []
    {
      var text := ReadHex(src);
      if text.None? {
        return 0;
      }
      DecodeEncode(src);
      code := WriteHex(text.value, dest);
    }

    /** The loop of writeHex over an accepted text. */
    method AppendPairs(s: seq<CChar>, dest: Buffer)
      requires Valid() && dest.Valid() && |s| % 2 == 0
      modifies dest`data
      ensures dest.Valid() && dest.data == old(dest.data) + Decode(s)
    {
      var outBuffer := new byte[OUT_BUFFER_SIZE];
      var outPos: nat, at: nat := 0, 0;
      ghost var k := 0;
      while at < |s|
        invariant at == 2 * k <= |s| && outPos < OUT_BUFFER_SIZE == outBuffer.Length && dest.Valid()
        invariant dest.data + outBuffer[..outPos] == old(dest.data) + DecodePairs(s, k)
      {
        var b := LookUp(s, at);
        OnePairMore(s, k);
        ghost var done := DecodePairs(s, k);
        assert old(dest.data) + (done + [b]) == (old(dest.data) + done) + [b];
        outPos := Emit(outBuffer, outPos, b, dest);
        at, k := at + 2, k + 1;
      }
      dest.Write(outBuffer[..outPos]);
    }
  }
}
