/** Base64 text (sections 4 and 5 of RFC 4648) as the codec reads and writes it, block by block. */
module Base64 {
  import opened Common

  /** A 7-bit character of a C string; its terminator is not part of the sequence. */
  type Ascii = c: int | 0 < c < 128 witness 65

  type sextet = v: int | 0 <= v < 64

  const BV_INVALID: byte := 0xff
  const BV_WHITESPACE: byte := 0xfe
  const BV_PADDING: byte := 0xfd
  const BV_END: byte := 0xfc

  /** The alphabet of RFC 4648, Table 1. */
  function BaseChar(value: sextet): Ascii
  {
    if value < 26 then 'A' as int + value
    else if value < 52 then 'a' as int + (value - 26)
    else if value < 62 then '0' as int + (value - 52)
    else if value == 62 then '+' as int
    else '/' as int
  }

  /** The value of a character; '-' and '_' stand for '+' and '/' (RFC 4648, Table 2). */
  function ValueOf(c: nat): byte {
    if 'A' as int <= c <= 'Z' as int then c - 'A' as int
    else if 'a' as int <= c <= 'z' as int then c - 'a' as int + 26
    else if '0' as int <= c <= '9' as int then c - '0' as int + 52
    else if c == '+' as int || c == '-' as int then 62
    else if c == '/' as int || c == '_' as int then 63
    else if c == '\n' as int || c == '\r' as int then BV_WHITESPACE
    else if c == '=' as int then BV_PADDING
    else if c == 0 then BV_END
    else BV_INVALID
  }

  /** What dereferencing a pointer into the string yields: its terminator at the end. */
  function At(s: seq<Ascii>, i: nat): nat
    requires i <= |s|
  {
    if i < |s| then s[i] else 0
  }

  // ----- encoding -----

  /** Up to three bytes, filled up with zero bits, as four sextets. */
  function SextetsOf(b: seq<byte>): (sextet, sextet, sextet, sextet)
    requires 1 <= |b| <= 3
  {
    var b0, b1, b2 := b[0], if |b| > 1 then b[1] else 0, if |b| > 2 then b[2] else 0;
    (b0 / 4, b0 % 4 * 16 + b1 / 16, b1 % 16 * 4 + b2 / 64, b2 % 64)
  }

  /** The sextets that are written: one more than there are bytes. */
  function EncodedSextets(b: seq<byte>): (block: seq<sextet>)
    requires 1 <= |b| <= 3
    ensures |block| == |b| + 1
  {
    var x := SextetsOf(b);
    [x.0, x.1] + (if |b| > 1 then [x.2] else []) + (if |b| > 2 then [x.3] else [])
  }

  /** The four characters of three bytes, of two bytes or of one, padded with '='. */
  function EncodeBlock(b: seq<byte>): (text: seq<Ascii>)
    requires 1 <= |b| <= 3
    ensures |text| == 4
  {
    var x := SextetsOf(b);
    [ BaseChar(x.0), BaseChar(x.1),
      if |b| > 1 then BaseChar(x.2) else '=' as int,
      if |b| > 2 then BaseChar(x.3) else '=' as int]
  }

  /** The bytes from position i on, three at a time. */
  function EncodeFrom(b: seq<byte>, i: nat): seq<Ascii>
    requires i <= |b|
    decreases |b| - i
  {
    if i == |b| then [] else EncodeBlock(b[i..Min(i + 3, |b|)]) + EncodeFrom(b, Min(i + 3, |b|))
  }

  function Encode(b: seq<byte>): seq<Ascii> {
    EncodeFrom(b, 0)
  }

  lemma {:induction false} EncodeLength(b: seq<byte>, i: nat)
    requires i <= |b|
    ensures |EncodeFrom(b, i)| == (|b| - i + 2) / 3 * 4
    decreases |b| - i
  {
    if i < |b| {
      EncodeLength(b, Min(i + 3, |b|));
    }
  }

  /** The number of values of the 32-bit library's `size_t`. */
  const SIZE_VALUES := 0x1_0000_0000

  /** `(len+2) / 3 * 4` in `size_t` arithmetic. */
  function ResultLength(len: nat): nat {
    (len + 2) % SIZE_VALUES / 3 * 4 % SIZE_VALUES
  }

  /** The test for overflow in readBase64 fires exactly when the text is too long for a `size_t`. */
  lemma OverflowTestExact(len: nat)
    requires len < SIZE_VALUES
    ensures ResultLength(len) < len <==> (len + 2) / 3 * 4 >= SIZE_VALUES
    ensures ResultLength(len) >= len ==> ResultLength(len) == (len + 2) / 3 * 4
  {
  }

  // ----- decoding -----

  /** A block of text: up to four characters, as their values. */
  type Block = b: seq<sextet> | |b| <= 4

  /**
   A character with value `v` after the unfinished block: four characters or a padding character end
   the block; everything that has no value is ignored.
   */
  function Ended(v: byte, block: Block): seq<Block>
    requires |block| < 4
  {
    if v < 64 && |block| == 3 then [block + [v]] else if v == BV_PADDING then [block] else []
  }

  function Next(v: byte, block: Block): (r: Block)
    requires |block| < 4
    ensures |r| < 4
  {
    if v < 64 then if |block| == 3 then [] else block + [v]
    else if v == BV_PADDING then []
    else block
  }

  /** The blocks of the text from position i on, the first of which has begun with `block`. */
  function BlocksFrom(s: seq<Ascii>, i: nat, block: Block): seq<Block>
    requires i <= |s| && |block| < 4
    decreases |s| - i
  {
    if i == |s| then if block == [] then [] else [block]
    else
      Ended(ValueOf(s[i]), block) + BlocksFrom(s, i + 1, Next(ValueOf(s[i]), block))
  }

  /** The unfinished block at the end of the text. */
  function BlockAfter(s: seq<Ascii>, i: nat, block: Block): (r: Block)
    requires i <= |s| && |block| < 4
    ensures |r| < 4
    decreases |s| - i
  {
    if i == |s| then block else BlockAfter(s, i + 1, Next(ValueOf(s[i]), block))
  }

  // The three bytes that four sextets carry.
  function Byte0(x0: sextet, x1: sextet): byte { x0 * 4 + x1 / 16 }
  function Byte1(x1: sextet, x2: sextet): byte { x1 % 16 * 16 + x2 / 4 }
  function Byte2(x2: sextet, x3: sextet): byte { x2 % 4 * 64 + x3 }

  /** The bytes of a block: one less than it has characters. */
  function BlockBytes(block: Block): (b: seq<byte>)
    ensures |b| == LastBlockBytes(|block|)
  {
    if |block| < 2 then []
    else if |block| == 2 then [Byte0(block[0], block[1])]
    else if |block| == 3 then [Byte0(block[0], block[1]), Byte1(block[1], block[2])]
    else [Byte0(block[0], block[1]), Byte1(block[1], block[2]), Byte2(block[2], block[3])]
  }

  function LastBlockBytes(n: nat): nat {
    if n == 0 then 0 else n - 1
  }

  function Bytes(blocks: seq<Block>): seq<byte> {
    if blocks == [] then [] else BlockBytes(blocks[0]) + Bytes(blocks[1..])
  }

  /** What a text stands for (RFC 4648, section 4), block by block. */
  function Decode(s: seq<Ascii>): seq<byte> {
    Bytes(BlocksFrom(s, 0, []))
  }

  lemma {:induction false} BytesConcat(a: seq<Block>, b: seq<Block>)
    ensures Bytes(a + b) == Bytes(a) + Bytes(b)
  {
    if a == [] {
      assert a + b == b;
    } else {
      assert (a + b)[1..] == a[1..] + b;
      BytesConcat(a[1..], b);
    }
  }

  // ----- validation -----

  /** How far a scan gets: to the terminator, a padding character it returns at, or an invalid one. */
  datatype Scan = Terminated(unfinished: nat) | BadPadding(at: nat) | InvalidChar(at: nat)

  /** The scan from position i with n < 4 characters in the current block. */
  function ScanFrom(s: seq<Ascii>, i: nat, n: nat): Scan
    requires i <= |s|
    decreases |s| - i
  {
    if i == |s| then Terminated(n)
    else
      var v := ValueOf(s[i]);
      if v < 64 then ScanFrom(s, i + 1, if n == 3 then 0 else n + 1)
      else if v == BV_WHITESPACE then ScanFrom(s, i + 1, n)
      else if v == BV_PADDING then if n == 1 then BadPadding(i) else ScanFrom(s, i + 1, 0)
      else InvalidChar(i)
  }

  /** How many bytes the blocks stand for, from the number of characters alone. */
  function LengthFrom(s: seq<Ascii>, i: nat, n: nat): nat
    requires i <= |s|
    decreases |s| - i
  {
    if i == |s| then LastBlockBytes(n)
    else
      var v := ValueOf(s[i]);
      if v < 64 then if n == 3 then 3 + LengthFrom(s, i + 1, 0) else LengthFrom(s, i + 1, n + 1)
      else if v == BV_PADDING then LastBlockBytes(n) + LengthFrom(s, i + 1, 0)
      else LengthFrom(s, i + 1, n)
  }

  lemma {:induction false} DecodeLength(s: seq<Ascii>, i: nat, block: Block)
    requires i <= |s| && |block| < 4
    ensures |Bytes(BlocksFrom(s, i, block))| == LengthFrom(s, i, |block|)
    decreases |s| - i
  {
    if i == |s| {
      if block != [] {
        assert Bytes([block]) == BlockBytes(block) + Bytes([]);
      }
    } else {
      var ended, next := Ended(ValueOf(s[i]), block), Next(ValueOf(s[i]), block);
      DecodeLength(s, i + 1, next);
      BytesConcat(ended, BlocksFrom(s, i + 1, next));
      if ended != [] {
        assert Bytes(ended) == BlockBytes(ended[0]) + Bytes([]);
      }
    }
  }

  /** The number of characters in the block that position i is in, counted from the left. */
  function BlockPosition(s: seq<Ascii>, i: nat): (n: nat)
    requires i <= |s|
    ensures n < 4
  {
    if i == 0 then 0
    else
      var n, v := BlockPosition(s, i - 1), ValueOf(s[i - 1]);
      if v < 64 then if n == 3 then 0 else n + 1
      else if v == BV_PADDING then 0
      else n
  }

  /** A padding character after the first character of a block makes `validate` return true at once. */
  predicate ReturnsAt(s: seq<Ascii>, i: nat)
    requires i < |s|
  {
    ValueOf(s[i]) == BV_PADDING && BlockPosition(s, i) == 1
  }

  lemma {:induction false} ScanCharacterized(s: seq<Ascii>, i: nat)
    requires i <= |s|
    ensures match ScanFrom(s, i, BlockPosition(s, i))
            case InvalidChar(at) =>
              && i <= at < |s| && ValueOf(s[at]) == BV_INVALID
              && forall j :: i <= j < at ==> ValueOf(s[j]) != BV_INVALID && !ReturnsAt(s, j)
            case BadPadding(at) =>
              && i <= at < |s| && ReturnsAt(s, at)
              && forall j :: i <= j < at ==> ValueOf(s[j]) != BV_INVALID && !ReturnsAt(s, j)
            case Terminated(n) =>
              && n == BlockPosition(s, |s|)
              && forall j :: i <= j < |s| ==> ValueOf(s[j]) != BV_INVALID && !ReturnsAt(s, j)
    decreases |s| - i
  {
    if i < |s| && ValueOf(s[i]) != BV_INVALID && !ReturnsAt(s, i) {
      ScanCharacterized(s, i + 1);
    }
  }

  predicate Refused(s: seq<Ascii>) {
    ScanFrom(s, 0, 0).InvalidChar?
  }

  /** A text is refused exactly when a character is invalid and no misplaced padding comes before it. */
  lemma RefusedIff(s: seq<Ascii>)
    ensures Refused(s) <==>
              exists at :: 0 <= at < |s| && ValueOf(s[at]) == BV_INVALID && forall j :: 0 <= j < at ==> !ReturnsAt(s, j)
  {
    ScanCharacterized(s, 0);
    if Refused(s) {
      var at := ScanFrom(s, 0, 0).at;
      assert ValueOf(s[at]) == BV_INVALID;
    }
  }

  /** So an invalid character is not always refused: "A=!" passes, and decodes to nothing. */
  lemma InvalidCharacterAccepted()
    ensures var s: seq<Ascii> := ['A' as int, '=' as int, '!' as int];
            ValueOf(s[2]) == BV_INVALID && !Refused(s) && Decode(s) == []
  {
    var s: seq<Ascii> := ['A' as int, '=' as int, '!' as int];
    assert ScanFrom(s, 0, 0) == ScanFrom(s, 1, 1) == BadPadding(1);
    assert Next(ValueOf(s[0]), []) == [0] && Ended(ValueOf(s[1]), [0]) == [[0]];
    assert BlocksFrom(s, 2, []) == BlocksFrom(s, 3, []) == [];
    assert BlocksFrom(s, 0, []) == BlocksFrom(s, 1, [0]) == [[0]];
    assert Bytes([[0]]) == BlockBytes([0]) + Bytes([]);
  }

  // ----- laws -----

  lemma ValueOfBaseChar(v: sextet)
    ensures ValueOf(BaseChar(v)) == v
  {
  }

  lemma {:induction false} BlocksShift(s: seq<Ascii>, t: seq<Ascii>, i: nat, block: Block)
    requires i <= |t| && |block| < 4
    ensures BlocksFrom(s + t, |s| + i, block) == BlocksFrom(t, i, block)
    decreases |t| - i
  {
    if i < |t| {
      assert (s + t)[|s| + i] == t[i];
      BlocksShift(s, t, i + 1, Next(ValueOf(t[i]), block));
    }
  }

  /** A text that ends on a block boundary is read by itself, whatever follows. */
  lemma {:induction false} BlocksConcat(s: seq<Ascii>, t: seq<Ascii>, i: nat, block: Block)
    requires i <= |s| && |block| < 4 && BlockAfter(s, i, block) == []
    ensures BlocksFrom(s + t, i, block) == BlocksFrom(s, i, block) + BlocksFrom(t, 0, [])
    ensures BlockAfter(s + t, i, block) == BlockAfter(t, 0, [])
    decreases |s| - i
  {
    if i == |s| {
      BlocksShift(s, t, 0, []);
      BlockAfterShift(s, t, 0, []);
    } else {
      assert (s + t)[i] == s[i];
      var ended, next := Ended(ValueOf(s[i]), block), Next(ValueOf(s[i]), block);
      BlocksConcat(s, t, i + 1, next);
      assert BlockAfter(s, i, block) == BlockAfter(s, i + 1, next);
      assert BlockAfter(s + t, i, block) == BlockAfter(s + t, i + 1, next);
      var blocks, more := BlocksFrom(s, i + 1, next), BlocksFrom(t, 0, []);
      assert BlocksFrom(s + t, i, block) == ended + (blocks + more);
      assert ended + (blocks + more) == (ended + blocks) + more;
    }
  }

  lemma {:induction false} BlockAfterShift(s: seq<Ascii>, t: seq<Ascii>, i: nat, block: Block)
    requires i <= |t| && |block| < 4
    ensures BlockAfter(s + t, |s| + i, block) == BlockAfter(t, i, block)
    decreases |t| - i
  {
    if i < |t| {
      assert (s + t)[|s| + i] == t[i];
      BlockAfterShift(s, t, i + 1, Next(ValueOf(t[i]), block));
    }
  }

  lemma FourSteps(text: seq<Ascii>)
    requires |text| == 4
    ensures var e0, c1 := Ended(ValueOf(text[0]), []), Next(ValueOf(text[0]), []);
            var e1, c2 := Ended(ValueOf(text[1]), c1), Next(ValueOf(text[1]), c1);
            var e2, c3 := Ended(ValueOf(text[2]), c2), Next(ValueOf(text[2]), c2);
            var e3, c4 := Ended(ValueOf(text[3]), c3), Next(ValueOf(text[3]), c3);
            BlockAfter(text, 0, []) == c4 && (c4 == [] ==> BlocksFrom(text, 0, []) == e0 + (e1 + (e2 + e3)))
  {
    var e0, c1 := Ended(ValueOf(text[0]), []), Next(ValueOf(text[0]), []);
    var e1, c2 := Ended(ValueOf(text[1]), c1), Next(ValueOf(text[1]), c1);
    var e2, c3 := Ended(ValueOf(text[2]), c2), Next(ValueOf(text[2]), c2);
    var e3, c4 := Ended(ValueOf(text[3]), c3), Next(ValueOf(text[3]), c3);
    assert BlockAfter(text, 4, c4) == c4 == BlockAfter(text, 3, c3);
    assert BlockAfter(text, 1, c1) == BlockAfter(text, 2, c2) == BlockAfter(text, 3, c3);
    if c4 == [] {
      assert BlocksFrom(text, 3, c3) == e3 + BlocksFrom(text, 4, c4) == e3;
      assert BlocksFrom(text, 2, c2) == e2 + BlocksFrom(text, 3, c3);
      assert BlocksFrom(text, 1, c1) == e1 + BlocksFrom(text, 2, c2);
    }
  }

  lemma StepsOfBaseChars(x0: sextet, x1: sextet, x2: sextet, x3: sextet)
    ensures Next(ValueOf(BaseChar(x0)), []) == [x0] && Ended(ValueOf(BaseChar(x0)), []) == []
    ensures Next(ValueOf(BaseChar(x1)), [x0]) == [x0, x1] && Ended(ValueOf(BaseChar(x1)), [x0]) == []
    ensures Next(ValueOf(BaseChar(x2)), [x0, x1]) == [x0, x1, x2] && Ended(ValueOf(BaseChar(x2)), [x0, x1]) == []
    ensures Next(ValueOf(BaseChar(x3)), [x0, x1, x2]) == [] && Ended(ValueOf(BaseChar(x3)), [x0, x1, x2]) == [[x0, x1, x2, x3]]
  {
    ValueOfBaseChar(x0);
    ValueOfBaseChar(x1);
    ValueOfBaseChar(x2);
    ValueOfBaseChar(x3);
    assert [x0, x1, x2] + [x3] == [x0, x1, x2, x3];
  }

  /** The sextets of a block carry its bytes; the bits that fill up the last one are dropped. */
  lemma SextetsCarryBytes(b0: byte, b1: byte, b2: byte)
    ensures Byte0(b0 / 4, b0 % 4 * 16 + b1 / 16) == b0
    ensures Byte1(b0 % 4 * 16 + b1 / 16, b1 % 16 * 4 + b2 / 64) == b1
    ensures Byte2(b1 % 16 * 4 + b2 / 64, b2 % 64) == b2
  {
  }

  /** Encoded bytes are one block of text, whatever padding it has ... */
  lemma EncodedIsOneBlock(b: seq<byte>)
    requires 1 <= |b| <= 3
    ensures BlocksFrom(EncodeBlock(b), 0, []) == [EncodedSextets(b)] + (if |b| == 1 then [[]] else [])
    ensures BlockAfter(EncodeBlock(b), 0, []) == []
  {
    var x := SextetsOf(b);
    FourSteps(EncodeBlock(b));
    StepsOfBaseChars(x.0, x.1, x.2, x.3);
    assert EncodedSextets(b) == [x.0, x.1, x.2, x.3][..|b| + 1];
    assert [x.0, x.1, x.2, x.3][..2] == [x.0, x.1] && [x.0, x.1, x.2, x.3][..3] == [x.0, x.1, x.2];
  }

  /** ... with the bytes in it. */
  lemma BlockRoundTrip(b: seq<byte>)
    requires 1 <= |b| <= 3
    ensures Decode(EncodeBlock(b)) == b
  {
    EncodedIsOneBlock(b);
    SextetsCarryBytes(b[0], if |b| > 1 then b[1] else 0, if |b| > 2 then b[2] else 0);
    var block := EncodedSextets(b);
    var rest: seq<Block> := if |b| == 1 then [[]] else [];
    assert Bytes(rest) == [];
    BytesConcat([block], rest);
    assert Bytes([block]) == BlockBytes(block) + Bytes([]);
  }

  /** Where a block ends, a text can be split. */
  lemma DecodeSplits(s: seq<Ascii>, t: seq<Ascii>)
    requires BlockAfter(s, 0, []) == []
    ensures Decode(s + t) == Decode(s) + Decode(t) && BlockAfter(s + t, 0, []) == BlockAfter(t, 0, [])
  {
    BlocksConcat(s, t, 0, []);
    BytesConcat(BlocksFrom(s, 0, []), BlocksFrom(t, 0, []));
  }

  lemma BlockThenRest(b: seq<byte>, rest: seq<byte>, text: seq<Ascii>)
    requires 1 <= |b| <= 3 && Decode(text) == rest && BlockAfter(text, 0, []) == []
    ensures Decode(EncodeBlock(b) + text) == b + rest && BlockAfter(EncodeBlock(b) + text, 0, []) == []
  {
    BlockRoundTrip(b);
    EncodedIsOneBlock(b);
    DecodeSplits(EncodeBlock(b), text);
  }

  lemma {:induction false} DecodeEncodeFrom(b: seq<byte>, i: nat)
    requires i <= |b|
    ensures Decode(EncodeFrom(b, i)) == b[i..] && BlockAfter(EncodeFrom(b, i), 0, []) == []
    decreases |b| - i
  {
    if i < |b| {
      var next := Min(i + 3, |b|);
      DecodeEncodeFrom(b, next);
      BlockThenRest(b[i..next], b[next..], EncodeFrom(b, next));
      SplitSlice(b, i, next);
    }
  }

  lemma SplitSlice<T>(s: seq<T>, i: nat, j: nat)
    requires i <= j <= |s|
    ensures s[i..] == s[i..j] + s[j..]
  {
  }

  /** Decoding an encoding gives the bytes back, and the encoding ends on a block boundary. */
  lemma DecodeEncode(b: seq<byte>)
    ensures Decode(Encode(b)) == b && BlockAfter(Encode(b), 0, []) == []
  {
    DecodeEncodeFrom(b, 0);
  }

  /** The text from position i on, without its line breaks. */
  function WithoutLineBreaks(s: seq<Ascii>, i: nat): seq<Ascii>
    decreases |s| - i
  {
    if i >= |s| then []
    else (if ValueOf(s[i]) == BV_WHITESPACE then [] else [s[i]]) + WithoutLineBreaks(s, i + 1)
  }

  /** Line breaks anywhere change nothing. */
  lemma LineBreaksIgnored(s: seq<Ascii>)
    ensures Decode(WithoutLineBreaks(s, 0)) == Decode(s) && Refused(WithoutLineBreaks(s, 0)) == Refused(s)
  {
    SameBlocks(s, 0, []);
    SameScan(s, 0, 0);
  }

  /** Two scans end alike, if not at the same position. */
  predicate SameOutcome(a: Scan, b: Scan) {
    (a.Terminated? && a == b) || (a.BadPadding? && b.BadPadding?) || (a.InvalidChar? && b.InvalidChar?)
  }

  lemma {:induction false} ScanShift(s: seq<Ascii>, t: seq<Ascii>, i: nat, n: nat)
    requires i <= |t|
    ensures SameOutcome(ScanFrom(s + t, |s| + i, n), ScanFrom(t, i, n))
    decreases |t| - i
  {
    if i < |t| {
      assert (s + t)[|s| + i] == t[i];
      ScanShift(s, t, i + 1, n);
      ScanShift(s, t, i + 1, if n == 3 then 0 else n + 1);
      ScanShift(s, t, i + 1, 0);
    }
  }

  lemma {:induction false} SameScan(s: seq<Ascii>, i: nat, n: nat)
    requires i <= |s|
    ensures SameOutcome(ScanFrom(WithoutLineBreaks(s, i), 0, n), ScanFrom(s, i, n))
    decreases |s| - i
  {
    if i < |s| {
      var rest, v := WithoutLineBreaks(s, i + 1), ValueOf(s[i]);
      var next := if v < 64 then if n == 3 then 0 else n + 1 else if v == BV_PADDING then 0 else n;
      SameScan(s, i + 1, next);
      if v == BV_WHITESPACE {
        assert WithoutLineBreaks(s, i) == rest;
      } else {
        ScanShift([s[i]], rest, 0, next);
        assert WithoutLineBreaks(s, i) == [s[i]] + rest;
      }
    }
  }

  lemma {:induction false} SameBlocks(s: seq<Ascii>, i: nat, block: Block)
    requires i <= |s| && |block| < 4
    ensures BlocksFrom(WithoutLineBreaks(s, i), 0, block) == BlocksFrom(s, i, block)
    decreases |s| - i
  {
    if i < |s| {
      var rest := WithoutLineBreaks(s, i + 1);
      SameBlocks(s, i + 1, Next(ValueOf(s[i]), block));
      if ValueOf(s[i]) == BV_WHITESPACE {
        assert WithoutLineBreaks(s, i) == rest;
      } else {
        BlocksCons(s[i], rest, block);
      }
    }
  }

  lemma BlocksCons(c: Ascii, rest: seq<Ascii>, block: Block)
    requires |block| < 4
    ensures BlocksFrom([c] + rest, 0, block) == Ended(ValueOf(c), block) + BlocksFrom(rest, 0, Next(ValueOf(c), block))
  {
    BlocksShift([c], rest, 0, Next(ValueOf(c), block));
  }

  /** Only the values of the characters matter. */
  lemma {:induction false} SameValuesSameBlocks(s: seq<Ascii>, t: seq<Ascii>, i: nat, block: Block)
    requires |s| == |t| && i <= |s| && |block| < 4
    requires forall j :: 0 <= j < |s| ==> ValueOf(s[j]) == ValueOf(t[j])
    ensures BlocksFrom(t, i, block) == BlocksFrom(s, i, block)
    decreases |s| - i
  {
    if i < |s| {
      var ended, next := Ended(ValueOf(s[i]), block), Next(ValueOf(s[i]), block);
      SameValuesSameBlocks(s, t, i + 1, next);
      assert BlocksFrom(s, i, block) == ended + BlocksFrom(s, i + 1, next);
      assert ValueOf(t[i]) == ValueOf(s[i]);
      assert BlocksFrom(t, i, block) == ended + BlocksFrom(t, i + 1, next);
    }
  }

  lemma {:induction false} SameValuesSameScan(s: seq<Ascii>, t: seq<Ascii>, i: nat, n: nat)
    requires |s| == |t| && i <= |s|
    requires forall j :: 0 <= j < |s| ==> ValueOf(s[j]) == ValueOf(t[j])
    ensures ScanFrom(t, i, n) == ScanFrom(s, i, n)
    decreases |s| - i
  {
    if i < |s| {
      SameValuesSameScan(s, t, i + 1, n);
      SameValuesSameScan(s, t, i + 1, if n == 3 then 0 else n + 1);
      SameValuesSameScan(s, t, i + 1, 0);
    }
  }

  /** The text with '+' for '-' and '/' for '_'. */
  function Standard(s: seq<Ascii>): (r: seq<Ascii>)
    ensures |r| == |s|
  {
    seq(|s|, i requires 0 <= i < |s| =>
      if s[i] == '-' as int then '+' as int else if s[i] == '_' as int then '/' as int else s[i])
  }

  /** The URL-safe alphabet decodes like the standard one. */
  lemma UrlSafeDecodesAlike(s: seq<Ascii>)
    ensures Decode(Standard(s)) == Decode(s) && Refused(Standard(s)) == Refused(s)
  {
    SameValuesSameBlocks(s, Standard(s), 0, []);
    SameValuesSameScan(s, Standard(s), 0, 0);
  }

  /** What is encoded is never refused, and the scan ends with no unfinished block. */
  lemma EncodingIsAccepted(b: seq<byte>)
    ensures ScanFrom(Encode(b), 0, 0) == Terminated(0)
  {
    EncodingScans(b, 0, [], []);
    assert [] + Encode(b) + [] == Encode(b);
  }

  /** The scan gets over encoded bytes to what follows them. */
  lemma {:induction false} EncodingScans(b: seq<byte>, i: nat, before: seq<Ascii>, after: seq<Ascii>)
    requires i <= |b|
    ensures var s := before + EncodeFrom(b, i) + after;
            ScanFrom(s, |before|, 0) == ScanFrom(s, |before + EncodeFrom(b, i)|, 0)
    decreases |b| - i
  {
    if i < |b| {
      var next := Min(i + 3, |b|);
      var block, rest := EncodeBlock(b[i..next]), EncodeFrom(b, next);
      assert before + (block + rest) + after == (before + block) + rest + after == before + block + (rest + after);
      EncodingScans(b, next, before + block, after);
      BlockScans(b[i..next], before, rest + after);
    }
  }

  lemma EncodingInFront(a: seq<byte>, text: seq<Ascii>)
    ensures Refused(Encode(a) + text) == Refused(text)
  {
    EncodingScans(a, 0, [], text);
    assert [] + Encode(a) + text == Encode(a) + text && [] + Encode(a) == Encode(a);
    ScanShift(Encode(a), text, 0, 0);
  }

  /** An encoding in front of a text adds its payload and does not change whether the text is refused. */
  lemma DecodeConcat(a: seq<byte>, text: seq<Ascii>)
    ensures Decode(Encode(a) + text) == a + Decode(text) && Refused(Encode(a) + text) == Refused(text)
  {
    DecodeEncode(a);
    DecodeSplits(Encode(a), text);
    EncodingInFront(a, text);
  }

  lemma BlockScans(b: seq<byte>, before: seq<Ascii>, rest: seq<Ascii>)
    requires 1 <= |b| <= 3
    ensures var s := before + EncodeBlock(b) + rest;
            ScanFrom(s, |before|, 0) == ScanFrom(s, |before| + 4, 0)
  {
    var text, x, i := EncodeBlock(b), SextetsOf(b), |before|;
    var s := before + text + rest;
    ValueOfBaseChar(x.0);
    ValueOfBaseChar(x.1);
    ValueOfBaseChar(x.2);
    ValueOfBaseChar(x.3);
    assert s[i] == text[0] && s[i + 1] == text[1] && s[i + 2] == text[2] && s[i + 3] == text[3];
    assert ScanFrom(s, i, 0) == ScanFrom(s, i + 1, 1) == ScanFrom(s, i + 2, 2);
    if |b| == 1 {
      assert ScanFrom(s, i + 2, 2) == ScanFrom(s, i + 3, 0) == ScanFrom(s, i + 4, 0);
    } else {
      assert ScanFrom(s, i + 2, 2) == ScanFrom(s, i + 3, 3);
      assert ScanFrom(s, i + 3, 3) == ScanFrom(s, i + 4, 0);
    }
  }
}
