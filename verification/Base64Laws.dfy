/** Which characters an encoding consists of, and what any text stands for, stated bit by bit and law by law. */
module Base64Laws {
  import opened Common
  import opened Base64
  import opened Base64Codecs

  // ----- the alphabet -----

  const UPPER := "ABCDEFGHIJKLMNOPQRSTUVWXYZ"
  const LOWER := "abcdefghijklmnopqrstuvwxyz"
  const NUMERALS := "0123456789"

  /** The alphabet of RFC 4648, section 4. */
  const ALPHABET := UPPER + LOWER + NUMERALS + "+/"

  lemma UpperAt(v: nat)
    requires v < 26
    ensures |UPPER| == 26 && UPPER[v] as int == 'A' as int + v
  {
  }

  lemma LowerAt(v: nat)
    requires v < 26
    ensures |LOWER| == 26 && LOWER[v] as int == 'a' as int + v
  {
  }

  lemma NumeralAt(v: nat)
    requires v < 10
    ensures |NUMERALS| == 10 && NUMERALS[v] as int == '0' as int + v
  {
  }

  lemma PickPart<T>(a: seq<T>, b: seq<T>, c: seq<T>, d: seq<T>, v: nat)
    requires v < |a| + |b| + |c| + |d|
    ensures (a + b + c + d)[v] == if v < |a| then a[v]
                                  else if v < |a| + |b| then b[v - |a|]
                                  else if v < |a| + |b| + |c| then c[v - |a| - |b|]
                                  else d[v - |a| - |b| - |c|]
  {
  }

  /** Six bits are written as the character at that position of the alphabet, which reads back as them. */
  lemma AlphabetAt(v: sextet)
    ensures |ALPHABET| == 64 && BaseChar(v) == ALPHABET[v] as int && ValueOf(BaseChar(v)) == v
  {
    UpperAt(if v < 26 then v else 0);
    LowerAt(if 26 <= v < 52 then v - 26 else 0);
    NumeralAt(if 52 <= v < 62 then v - 52 else 0);
    PickPart(UPPER, LOWER, NUMERALS, "+/", v);
  }

  /** The characters with a value are those of the alphabet, '-' for the last but one and '_' for the last. */
  lemma ValuesExactly(c: Ascii)
    ensures |ALPHABET| == 64
    ensures ValueOf(c) < 64 ==>
              c == ALPHABET[ValueOf(c)] as int || (c == '-' as int && ValueOf(c) == 62) || (c == '_' as int && ValueOf(c) == 63)
    ensures ValueOf(c) == BV_PADDING <==> c == '=' as int
    ensures ValueOf(c) == BV_WHITESPACE <==> c == '\n' as int || c == '\r' as int
    ensures c == '-' as int || c == '_' as int || (exists v: sextet :: BaseChar(v) == c) ==> ValueOf(c) < 64
  {
    AlphabetAt(if ValueOf(c) < 64 then ValueOf(c) else 0);
  }

  // ----- encoding -----

  /** The byte at position i, or zero bits behind the end. */
  function ByteAt(b: seq<byte>, i: nat): byte {
    if i < |b| then b[i] else 0
  }

  /** The 24 bits of the q-th three bytes. */
  function Word(b: seq<byte>, q: nat): nat {
    ByteAt(b, 3 * q) * 65536 + ByteAt(b, 3 * q + 1) * 256 + ByteAt(b, 3 * q + 2)
  }

  /** The k-th group of six bits, from the left. */
  function SixBits(b: seq<byte>, k: nat): sextet {
    var w := Word(b, k / 4);
    (if k % 4 == 0 then w / 262144 else if k % 4 == 1 then w / 4096 else if k % 4 == 2 then w / 64 else w) % 64
  }

  lemma {:induction false} CharacterInBlock(b: seq<byte>, i: nat, q: nat, r: nat)
    requires i <= |b| && r < 4 && 4 * q + r < |EncodeFrom(b, i)|
    ensures i + 3 * q < |b|
    ensures EncodeFrom(b, i)[4 * q + r] == EncodeBlock(b[i + 3 * q..Min(i + 3 * q + 3, |b|)])[r]
    decreases q
  {
    if q > 0 {
      var next := Min(i + 3, |b|);
      var first, rest := EncodeBlock(b[i..next]), EncodeFrom(b, next);
      assert EncodeFrom(b, i) == first + rest && (first + rest)[4 * q + r] == rest[4 * (q - 1) + r];
      CharacterInBlock(b, next, q - 1, r);
    }
  }

  /** The sextets of the q-th three bytes are the groups of six bits of their word. */
  lemma SixBitsOfWord(b: seq<byte>, q: nat)
    ensures var b0, b1, b2 := ByteAt(b, 3 * q), ByteAt(b, 3 * q + 1), ByteAt(b, 3 * q + 2);
            && SixBits(b, 4 * q) == b0 / 4 && SixBits(b, 4 * q + 1) == b0 % 4 * 16 + b1 / 16
            && SixBits(b, 4 * q + 2) == b1 % 16 * 4 + b2 / 64 && SixBits(b, 4 * q + 3) == b2 % 64
  {
    WordSextets(ByteAt(b, 3 * q), ByteAt(b, 3 * q + 1), ByteAt(b, 3 * q + 2));
    assert 4 * q / 4 == (4 * q + 1) / 4 == (4 * q + 2) / 4 == (4 * q + 3) / 4 == q;
  }

  function SextetAt(b: seq<byte>, r: nat): sextet
    requires 1 <= |b| <= 3
  {
    var x := SextetsOf(b);
    if r == 0 then x.0 else if r == 1 then x.1 else if r == 2 then x.2 else x.3
  }

  /** A block is written with one character more than it has bytes, and padding. */
  lemma CharactersOfBlock(block: seq<byte>, r: nat)
    requires 1 <= |block| <= 3 && r < 4
    ensures EncodeBlock(block)[r] == if r <= |block| then BaseChar(SextetAt(block, r)) else '=' as int
  {
  }

  lemma SextetOfBytes(block: seq<byte>, b0: byte, b1: byte, b2: byte, r: nat)
    requires 1 <= |block| <= 3 && r < 4 && block[0] == b0
    requires (if |block| > 1 then block[1] else 0) == b1 && (if |block| > 2 then block[2] else 0) == b2
    ensures SextetAt(block, r) ==
            if r == 0 then b0 / 4 else if r == 1 then b0 % 4 * 16 + b1 / 16 else if r == 2 then b1 % 16 * 4 + b2 / 64 else b2 % 64
  {
  }

  lemma SextetOfWord(b: seq<byte>, q: nat, r: nat)
    requires 3 * q < |b| && r < 4
    ensures SextetAt(b[3 * q..Min(3 * q + 3, |b|)], r) == SixBits(b, 4 * q + r)
  {
    SixBitsOfWord(b, q);
    SextetOfBytes(b[3 * q..Min(3 * q + 3, |b|)], ByteAt(b, 3 * q), ByteAt(b, 3 * q + 1), ByteAt(b, 3 * q + 2), r);
    if r == 0 {
      assert 4 * q + r == 4 * q;
    }
  }

  lemma BlockOfWord(b: seq<byte>, q: nat, r: nat)
    requires 3 * q < |b| && r < 4
    ensures EncodeBlock(b[3 * q..Min(3 * q + 3, |b|)])[r] ==
            if 24 * q + 6 * r < 8 * |b| then BaseChar(SixBits(b, 4 * q + r)) else '=' as int
  {
    CharactersOfBlock(b[3 * q..Min(3 * q + 3, |b|)], r);
    SextetOfWord(b, q, r);
  }

  /**
   The k-th character of an encoding is the character of the alphabet at the k-th six bits of the input,
   with zero bits behind its end, as long as those begin inside the input, and padding from there on.
   */
  lemma EncodedCharacters(b: seq<byte>, k: nat)
    requires k < |Encode(b)|
    ensures |ALPHABET| == 64 && |Encode(b)| == (|b| + 2) / 3 * 4
    ensures Encode(b)[k] == if 6 * k < 8 * |b| then ALPHABET[SixBits(b, k)] as int else '=' as int
  {
    EncodeLength(b, 0);
    CharacterInBlock(b, 0, k / 4, k % 4);
    BlockOfWord(b, k / 4, k % 4);
    AlphabetAt(SixBits(b, k));
  }

  // ----- decoding -----

  /** The finished blocks of a text. */
  function Finished(s: seq<Ascii>, i: nat, block: Block): seq<Block>
    requires i <= |s| && |block| < 4
    decreases |s| - i
  {
    if i == |s| then [] else Ended(ValueOf(s[i]), block) + Finished(s, i + 1, Next(ValueOf(s[i]), block))
  }

  lemma {:induction false} BlocksThrough(s: seq<Ascii>, t: seq<Ascii>, i: nat, block: Block)
    requires i <= |s| && |block| < 4
    ensures BlocksFrom(s + t, i, block) == Finished(s, i, block) + BlocksFrom(t, 0, BlockAfter(s, i, block))
    decreases |s| - i
  {
    if i == |s| {
      BlocksShift(s, t, 0, block);
    } else {
      assert (s + t)[i] == s[i];
      var ended, next := Ended(ValueOf(s[i]), block), Next(ValueOf(s[i]), block);
      BlocksThrough(s, t, i + 1, next);
      assert BlocksFrom(s + t, i, block) == ended + BlocksFrom(s + t, i + 1, next);
      Grouped(ended, Finished(s, i + 1, next), BlocksFrom(t, 0, BlockAfter(s, i + 1, next)));
    }
  }

  /** What a text stands for: its finished blocks, then what follows them. */
  lemma DecodeThrough(s: seq<Ascii>, t: seq<Ascii>)
    ensures Decode(s + t) == Bytes(Finished(s, 0, [])) + Bytes(BlocksFrom(t, 0, BlockAfter(s, 0, [])))
  {
    BlocksThrough(s, t, 0, []);
    BytesConcat(Finished(s, 0, []), BlocksFrom(t, 0, BlockAfter(s, 0, [])));
  }

  lemma BytesOfOne(block: Block)
    ensures Bytes([block]) == BlockBytes(block)
  {
    assert Bytes([block]) == BlockBytes(block) + Bytes([]);
  }

  lemma DecodeOpen(s: seq<Ascii>)
    ensures Decode(s) == Bytes(Finished(s, 0, [])) + BlockBytes(BlockAfter(s, 0, []))
  {
    var last := BlockAfter(s, 0, []);
    DecodeThrough(s, []);
    assert s + [] == s;
    BytesOfOne(last);
  }

  lemma PaddingFinishes(block: Block, t: seq<Ascii>)
    requires |block| < 4
    ensures Bytes(BlocksFrom(['=' as int] + t, 0, block)) == BlockBytes(block) + Decode(t)
  {
    BlocksCons('=' as int, t, block);
    BytesConcat([block], BlocksFrom(t, 0, []));
    BytesOfOne(block);
  }

  /** A padding character ends the block, wherever it stands; what follows is read by itself. */
  lemma PaddingEndsBlock(s: seq<Ascii>, t: seq<Ascii>)
    ensures Decode(s + (['=' as int] + t)) == Decode(s) + Decode(t)
  {
    var padding: Ascii := '=' as int;
    DecodeOpen(s);
    DecodeThrough(s, [padding] + t);
    PaddingFinishes(BlockAfter(s, 0, []), t);
    Grouped(Bytes(Finished(s, 0, [])), BlockBytes(BlockAfter(s, 0, [])), Decode(t));
  }

  /** A character that has no value and is no padding is skipped, wherever it stands. */
  lemma OthersAreSkipped(s: seq<Ascii>, c: Ascii, t: seq<Ascii>)
    requires ValueOf(c) >= 64 && ValueOf(c) != BV_PADDING
    ensures Decode(s + ([c] + t)) == Decode(s + t)
  {
    var last := BlockAfter(s, 0, []);
    DecodeThrough(s, t);
    DecodeThrough(s, [c] + t);
    BlocksCons(c, t, last);
    assert [] + BlocksFrom(t, 0, last) == BlocksFrom(t, 0, last);
  }

  /** The number that digits of a base denote, read from the left. */
  function Number(digits: seq<nat>, base: nat): nat {
    if digits == [] then 0 else Number(digits[..|digits| - 1], base) * base + digits[|digits| - 1]
  }

  lemma NumberAppend(digits: seq<nat>, d: nat, base: nat)
    ensures Number(digits + [d], base) == Number(digits, base) * base + d
  {
    assert (digits + [d])[..|digits|] == digits;
  }

  lemma NumberOfTwo(d0: nat, d1: nat, base: nat)
    ensures Number([], base) == 0 && Number([d0], base) == d0 && Number([d0, d1], base) == d0 * base + d1
  {
    NumberAppend([], d0, base);
    NumberAppend([d0], d1, base);
    assert [] + [d0] == [d0] && [d0] + [d1] == [d0, d1];
  }

  lemma NumberOfFour(d0: nat, d1: nat, d2: nat, d3: nat, base: nat)
    ensures Number([d0, d1, d2], base) == Number([d0, d1], base) * base + d2
    ensures Number([d0, d1, d2, d3], base) == Number([d0, d1, d2], base) * base + d3
  {
    NumberAppend([d0, d1], d2, base);
    NumberAppend([d0, d1, d2], d3, base);
    assert [d0, d1] + [d2] == [d0, d1, d2] && [d0, d1, d2] + [d3] == [d0, d1, d2, d3];
  }

  predicate Valued(s: seq<Ascii>) {
    forall i :: 0 <= i < |s| ==> ValueOf(s[i]) < 64
  }

  function Values(s: seq<Ascii>): (v: seq<sextet>)
    requires Valued(s)
    ensures |v| == |s|
  {
    seq(|s|, i requires 0 <= i < |s| => ValueOf(s[i]))
  }

  /** The low bits of n characters that do not fill a byte. */
  function SpareBits(n: nat): nat {
    if n == 1 then 64 else if n == 2 then 16 else if n == 3 then 4 else 1
  }

  /** Up to four characters with a value are one block. */
  lemma {:induction false} OneBlock(s: seq<Ascii>, i: nat)
    requires 1 <= |s| <= 4 && Valued(s) && i <= |s| && i < 4
    ensures BlocksFrom(s, i, Values(s)[..i]) == [Values(s)]
    ensures |s| == 4 ==> BlockAfter(s, i, Values(s)[..i]) == []
    decreases |s| - i
  {
    var v := Values(s);
    if i == |s| {
      assert v[..i] == v;
    } else {
      assert v[..i] + [v[i]] == v[..i + 1];
      if i < 3 {
        OneBlock(s, i + 1);
        assert BlocksFrom(s, i, v[..i]) == [] + BlocksFrom(s, i + 1, v[..i + 1]);
      } else {
        assert v[..4] == v && BlocksFrom(s, 4, []) == [];
        assert BlocksFrom(s, i, v[..i]) == [v] + BlocksFrom(s, 4, []);
      }
    }
  }

  lemma BitsOfBytes(v0: sextet, v1: sextet, v2: sextet, v3: sextet)
    ensures Byte0(v0, v1) == (v0 * 64 + v1) / 16
    ensures Byte0(v0, v1) * 256 + Byte1(v1, v2) == ((v0 * 64 + v1) * 64 + v2) / 4
    ensures (Byte0(v0, v1) * 256 + Byte1(v1, v2)) * 256 + Byte2(v2, v3) == ((v0 * 64 + v1) * 64 + v2) * 64 + v3
  {
  }

  lemma ShortBlockDenotes(v: Block)
    requires 1 <= |v| <= 2
    ensures Number(BlockBytes(v), 256) == Number(v, 64) / SpareBits(|v|)
  {
    var v0, v1 := v[0], if |v| > 1 then v[1] else 0;
    BitsOfBytes(v0, v1, 0, 0);
    NumberOfTwo(v0, v1, 64);
    NumberOfTwo(Byte0(v0, v1), 0, 256);
    assert v == if |v| == 1 then [v0] else [v0, v1];
  }

  lemma LongBlockDenotes(v: Block)
    requires 3 <= |v| <= 4
    ensures Number(BlockBytes(v), 256) == Number(v, 64) / SpareBits(|v|)
  {
    var v0, v1, v2, v3 := v[0], v[1], v[2], if |v| > 3 then v[3] else 0;
    var b0, b1, b2 := Byte0(v0, v1), Byte1(v1, v2), Byte2(v2, v3);
    BitsOfBytes(v0, v1, v2, v3);
    NumberOfTwo(v0, v1, 64);
    NumberOfFour(v0, v1, v2, v3, 64);
    NumberOfTwo(b0, b1, 256);
    NumberOfFour(b0, b1, b2, 0, 256);
    assert v == if |v| == 3 then [v0, v1, v2] else [v0, v1, v2, v3];
  }

  lemma BlockDenotes(v: Block)
    requires 1 <= |v| <= 4
    ensures |BlockBytes(v)| == |v| - 1 && Number(BlockBytes(v), 256) == Number(v, 64) / SpareBits(|v|)
  {
    if |v| <= 2 {
      ShortBlockDenotes(v);
    } else {
      LongBlockDenotes(v);
    }
  }

  /**
   Up to four characters stand for one byte less than there are characters: the bits of their values
   one after the other, without the spare ones. Four are complete: what follows is read by itself.
   */
  lemma CharactersDenoteBytes(s: seq<Ascii>, t: seq<Ascii>)
    requires 1 <= |s| <= 4 && Valued(s)
    ensures |Decode(s)| == |s| - 1 && Number(Decode(s), 256) == Number(Values(s), 64) / SpareBits(|s|)
    ensures |s| == 4 ==> Decode(s + t) == Decode(s) + Decode(t)
  {
    OneBlock(s, 0);
    BytesOfOne(Values(s));
    BlockDenotes(Values(s));
    if |s| == 4 {
      DecodeSplits(s, t);
    }
  }

  /** Nothing stands for nothing. */
  lemma DecodeNothing()
    ensures Decode([]) == []
  {
  }
}
