/**
 What `Inflate` accepts, over every input: exactly the streams of the format
 whose meaning has the size asked for, behind an optional zlib header. With
 it, what an encoder may rely on.
*/
module InflateTheorems {
  import opened BitStrings
  import opened Canonical
  import opened Deflate
  import opened Inflate
  import opened Wrappers

  /** Whether `bytes` hold the stream `blocks`, then `tail`, and it decompresses to `out`. */
  ghost predicate Holds(bytes: seq<byte>, blocks: seq<Block>, tail: Bits, out: seq<byte>) {
    && StreamOk(blocks, tail) && ByteBits(bytes) == StreamBits(blocks, tail)
    && BlocksInRange(blocks) && Run([], blocks) == Some(out)
  }

  /** Soundness and completeness: acceptance, and the bytes written, are those of the format. */
  lemma InflatesExactly(input: seq<byte>, size: nat, out: seq<byte>)
    ensures Inflated(input, size) == Some(out)
      <==> |input| >= 2 && |out| == size && exists blocks, tail :: Holds(Body(input), blocks, tail, out)
  {
    hide StreamOk, StreamBits, ParseStream, Run, ByteBits;
    var bits := ByteBits(Body(input));
    if Inflated(input, size) == Some(out) {
      ParseStreamWrites(bits);
      var (blocks, tail) := ParseStream(bits).value;
      assert Holds(Body(input), blocks, tail, out);
    }
    if exists blocks, tail :: Holds(Body(input), blocks, tail, out) {
      var blocks, tail :| Holds(Body(input), blocks, tail, out);
      ParseStreamBits(blocks, tail);
    }
  }

  /** No input holds two streams, so what it decompresses to does not depend on the reading. */
  lemma StreamIsUnique(blocks: seq<Block>, tail: Bits, blocks': seq<Block>, tail': Bits)
    requires StreamOk(blocks, tail) && StreamOk(blocks', tail')
    requires StreamBits(blocks, tail) == StreamBits(blocks', tail')
    ensures blocks == blocks' && tail == tail'
  {
    hide StreamOk, StreamBits, ParseStream;
    ParseStreamBits(blocks, tail);
    ParseStreamBits(blocks', tail');
  }

  // ---- raw streams and the zlib header ----

  lemma LowNibble(v: nat)
    requires v % 16 == 8
    ensures var b := LowBits(v, 8); !b[0] && !b[1] && !b[2] && b[3]
  {
    Pow2Values();
    assert v == 8 + v / 16 * Pow2(4);
    EightInBits();
    hide LowBits, Pow2;
    LowBitsStack(8, 4, v / 16, 4);
  }

  lemma EightInBits()
    ensures LowBits(8, 4) == [false, false, false, true]
  {
    assert LowBits(1, 1) == [true] && LowBits(2, 2) == [false, true] && LowBits(4, 3) == [false, false, true];
  }

  lemma FirstBlock(blocks: seq<Block>, tail: Bits)
    requires StreamOk(blocks, tail)
    ensures blocks != [] && (|blocks| > 1 ==> StreamOk(blocks[1..], tail))
    ensures var rest := AfterFirst(blocks, tail);
      BlockOk(blocks[0], |rest|) && StreamBits(blocks, tail) == FramedBits(|blocks| == 1, blocks[0], rest)
  {
  }

  lemma FramedHead(final: bool, btype: nat, w: Bits)
    ensures var bits := [final] + (LowBits(btype, 2) + w);
      bits[0] == final && bits[1] == (btype % 2 == 1) && bits[2] == (btype / 2 % 2 == 1) && bits[3..] == w
  {
    assert LowBits(btype, 2) == [btype % 2 == 1, btype / 2 % 2 == 1];
  }

  lemma StoredPadding(b: Block, rest: Bits)
    requires b.Stored? && BlockOk(b, |rest|) && (3 + |BlockBits(b, |rest|) + rest|) % 8 == 0
    ensures |b.pad| == 5 && (BlockBits(b, |rest|) + rest)[0] == b.pad[0]
  {
    hide LowBits, ByteBits;
    var n := 4 + |b.data| + |rest| / 8;
    assert |BlockBits(b, |rest|) + rest| == |b.pad| + 8 * n;
    assert (3 + |b.pad| + 8 * n) % 8 == 0;
    FivePadding(|b.pad|, n);
  }

  lemma FivePadding(pad: nat, n: nat)
    requires pad < 8 && (3 + pad + 8 * n) % 8 == 0
    ensures pad == 5
  {
    var k, m := (3 + pad) % 8, (3 + pad) / 8;
    assert 3 + pad + 8 * n == k + 8 * (m + n);
    ModEight(k, m + n);
  }

  /** A raw stream that seems to have a zlib header opens with a stored block, not the last, padded with ones. */
  lemma LookalikeIsPaddedStored(input: seq<byte>, blocks: seq<Block>, tail: Bits)
    requires LooksLikeZlib(input)
    requires StreamOk(blocks, tail) && ByteBits(input) == StreamBits(blocks, tail)
    ensures |blocks| > 1 && blocks[0].Stored? && |blocks[0].pad| == 5 && blocks[0].pad[0]
  {
    hide BlockOk, StreamOk, LowBits, BlockBits;
    var bits := ByteBits(input);
    assert bits[..8] == LowBits(input[0], 8);
    LowNibble(input[0]);
    FirstBlock(blocks, tail);
    var b, rest := blocks[0], AfterFirst(blocks, tail);
    FramedHead(|blocks| == 1, BlockType(b), BlockBits(b, |rest|) + rest);
    assert forall i :: 0 <= i < 4 ==> bits[i] == bits[..8][i];
    StoredPadding(b, rest);
    assert bits[3] == bits[3..][0];
  }

  lemma StreamNeedsTwoBytes(blocks: seq<Block>, tail: Bits)
    requires StreamOk(blocks, tail)
    ensures |StreamBits(blocks, tail)| > 8
  {
    hide BlockOk;
    FirstBlock(blocks, tail);
    BlockNeedsBits(blocks[0], |AfterFirst(blocks, tail)|);
  }

  lemma BlockNeedsBits(b: Block, rest: nat)
    requires BlockOk(b, rest)
    ensures |BlockBits(b, rest)| >= 7
  {
    match b
    case Stored(_, _) =>
    case Fixed(tokens) => EndCode(FixedLiterals(), FixedDistances(), tokens);
    case Dynamic(h, tokens) =>
  }

  lemma {:induction false} EndCode(lit: seq<nat>, dist: seq<nat>, tokens: seq<Token>)
    requires TokensOk(lit, dist, tokens)
    ensures |TokensBits(lit, dist, tokens)| >= lit[END_OF_BLOCK]
  {
    if tokens != [] {
      EndCode(lit, dist, tokens[1..]);
    }
  }

  /**
   A raw stream is decompressed to its meaning if and only if its first two
   bytes do not pass the test for a zlib header, or what comes after them
   happens to be a stream of the same meaning.
  */
  lemma RawStreamInflates(input: seq<byte>, blocks: seq<Block>, tail: Bits, out: seq<byte>)
    requires Holds(input, blocks, tail, out)
    ensures Inflated(input, |out|) == Some(out)
      <==> !LooksLikeZlib(input) || exists blocks', tail' :: Holds(input[2..], blocks', tail', out)
  {
    hide StreamOk, StreamBits, Run, ByteBits, Inflated;
    StreamNeedsTwoBytes(blocks, tail);
    InflatesExactly(input, |out|, out);
    hide Holds;
    if LooksLikeZlib(input) {
      assert Body(input) == input[2..];
    } else {
      assert Holds(Body(input), blocks, tail, out);
    }
  }

  /** So it is unless it opens with a stored block, not the last, that is padded with a one. */
  lemma UnpaddedInflates(input: seq<byte>, blocks: seq<Block>, tail: Bits, out: seq<byte>)
    requires Holds(input, blocks, tail, out)
    requires |blocks| > 1 && blocks[0].Stored? && |blocks[0].pad| == 5 ==> !blocks[0].pad[0]
    ensures Inflated(input, |out|) == Some(out)
  {
    hide StreamOk, StreamBits, Run, ByteBits, Inflated, LooksLikeZlib;
    RawStreamInflates(input, blocks, tail, out);
    if LooksLikeZlib(input) {
      LookalikeIsPaddedStored(input, blocks, tail);
      assert false;
    }
  }

  /** Behind any two header bytes that pass the test, the stream after them is what counts. */
  lemma ZlibStreamInflates(header: seq<byte>, body: seq<byte>, blocks: seq<Block>, tail: Bits, out: seq<byte>)
    requires |header| == 2 && LooksLikeZlib(header) && Holds(body, blocks, tail, out)
    ensures Inflated(header + body, |out|) == Some(out)
  {
    hide StreamOk, StreamBits, Run, ByteBits, Inflated;
    assert Body(header + body) == body;
    InflatesExactly(header + body, |out|, out);
  }

  /** Ones in the padding of a first block, as the format allows, and 0x7801 is a multiple of 31. */
  function Lookalike(): seq<byte> {
    [0x78, 0x01, 0x00, 0xfe, 0xff, 0x41, 0x01, 0x00, 0x00, 0xff, 0xff]
  }

  function LookalikeBlocks(): seq<Block> {
    [Block.Stored([true, true, true, true, false], [0x41]),
     EmptyStored()]
  }

  lemma FirstByteOfLookalike()
    ensures LowBits(0x78, 8) == [false] + ([false, false] + [true, true, true, true, false])
  {
    assert LowBits(0x78, 8) == [false, false, false, true, true, true, true, false];
  }

  lemma FirstByteOfEmpty()
    ensures LowBits(1, 8) == [true] + ([false, false] + [false, false, false, false, false])
  {
    assert LowBits(1, 8) == [true, false, false, false, false, false, false, false];
  }

  lemma Word(a: nat, b: nat)
    requires a < 256
    ensures LowBits(a + 256 * b, 16) == LowBits(a, 8) + LowBits(b, 8)
  {
    Pow2Values();
    LowBitsStack(a, 8, b, 8);
  }

  function StoredHead(a: byte, b: byte): seq<byte> {
    [a, b, 255 - a, 255 - b]
  }

  lemma StoredHeadBits(a: byte, b: byte)
    ensures ByteBits(StoredHead(a, b)) ==
      LowBits(a + 256 * (b as int), 16) + LowBits(65535 - (a + 256 * (b as int)), 16)
  {
    hide LowBits;
    Word(a, b);
    Word(255 - a, 255 - b);
    ByteBitsTwo(StoredHead(a, b));
    ByteBitsTwo(StoredHead(a, b)[2..]);
  }

  lemma StoredShape(final: bool, z: Bits, pad: Bits, f: Bits, g: Bits, data: Bits, rest: Bits)
    ensures [final] + (z + ((pad + (f + (g + data))) + rest)) == [final] + (z + pad) + (((f + g) + data) + rest)
  {
  }

  lemma StoredIsOk(pad: Bits, data: seq<byte>, rest: seq<byte>)
    requires |pad| == 5 && |data| < 65536
    ensures BlockOk(Block.Stored(pad, data), |ByteBits(rest)|)
  {
    ModEight(0, |rest|);
  }

  /** A stored block that starts in the first byte, with the bytes that follow it. */
  lemma StoredBytes(final: bool, pad: Bits, a: byte, b: byte, data: seq<byte>, rest: seq<byte>)
    requires |pad| == 5 && |data| == a + 256 * (b as int)
    requires BlockOk(Block.Stored(pad, data), |ByteBits(rest)|)
    ensures FramedBits(final, Block.Stored(pad, data), ByteBits(rest))
            == [final] + ([false, false] + pad) + ByteBits(StoredHead(a, b) + data + rest)
  {
    hide LowBits, ByteBits, StoredHead, BlockOk, TokensOk, HeaderOk, TokensBits, HeaderBits;
    StoredHeadBits(a, b);
    ByteBitsConcat(StoredHead(a, b) + data, rest);
    ByteBitsConcat(StoredHead(a, b), data);
    TwoZeros();
    StoredShape(final, [false, false], pad, LowBits(|data|, 16), LowBits(65535 - |data|, 16),
                ByteBits(data), ByteBits(rest));
  }

  lemma TwoZeros()
    ensures LowBits(0, 2) == [false, false]
  {
  }

  /**
   The comment at src/inflate.cpp:251-252 does not hold of this input: a valid
   raw stream of one byte, taken for a zlib stream and refused.
  */
  lemma LookalikeIsRefused()
    ensures Holds(Lookalike(), LookalikeBlocks(), [], [0x41])
    ensures Inflated(Lookalike(), 1) == None
  {
    LookalikeHolds();
    LookalikeFails();
  }

  function EmptyStored(): Block {
    Block.Stored([false, false, false, false, false], [])
  }

  /** The last block of that input: five bytes, nothing in it. */
  lemma EmptyLast()
    ensures StreamOk([EmptyStored()], []) && StreamBits([EmptyStored()], []) == ByteBits([0x01, 0x00, 0x00, 0xff, 0xff])
  {
    hide LowBits, BlockBits, FramedBits, BlockOk;
    var bytes: seq<byte> := [0x01, 0x00, 0x00, 0xff, 0xff];
    FirstByteOfEmpty();
    StoredIsOk(EmptyStored().pad, [], []);
    StoredBytes(true, EmptyStored().pad, 0, 0, [], []);
    assert StoredHead(0, 0) + [] + [] == bytes[1..];
    assert AfterFirst([EmptyStored()], []) == ByteBits([]);
  }

  /** A stored block before a stream, as bytes before bytes. */
  lemma StoredBefore(first: byte, pad: Bits, a: byte, b: byte, data: seq<byte>, blocks: seq<Block>, rest: seq<byte>)
    requires |pad| == 5 && |data| == a + 256 * (b as int)
    requires LowBits(first, 8) == [false] + ([false, false] + pad)
    requires StreamOk(blocks, []) && StreamBits(blocks, []) == ByteBits(rest)
    ensures var all := [Block.Stored(pad, data)] + blocks;
      StreamOk(all, []) && StreamBits(all, []) == ByteBits([first] + (StoredHead(a, b) + data + rest))
  {
    hide LowBits, BlockBits, FramedBits, BlockOk, StoredHead;
    var all := [Block.Stored(pad, data)] + blocks;
    assert all[1..] == blocks && |blocks| > 0;
    StoredIsOk(pad, data, rest);
    StoredBytes(false, pad, a, b, data, rest);
    var tail := StoredHead(a, b) + data + rest;
    assert ([first] + tail)[1..] == tail;
  }

  lemma LookalikeHolds()
    ensures Holds(Lookalike(), LookalikeBlocks(), [], [0x41])
  {
    hide LowBits, StreamOk, StreamBits, Run, ByteBits;
    var rest: seq<byte> := [0x01, 0x00, 0x00, 0xff, 0xff];
    EmptyLast();
    FirstByteOfLookalike();
    StoredBefore(0x78, LookalikeBlocks()[0].pad, 1, 0, [0x41], [EmptyStored()], rest);
    assert [0x78] + (StoredHead(1, 0) + [0x41] + rest) == Lookalike();
    assert [LookalikeBlocks()[0]] + [EmptyStored()] == LookalikeBlocks();
    LookalikeRuns();
  }

  lemma LookalikeRuns()
    ensures BlocksInRange(LookalikeBlocks()) && Run([], LookalikeBlocks()) == Some([0x41])
  {
    var b1, b2 := LookalikeBlocks()[0], LookalikeBlocks()[1];
    assert LookalikeBlocks()[1..] == [b2];
    assert [] + b1.data == [0x41] && [0x41] + b2.data == [0x41];
    assert Run([0x41], [b2]) == Some([0x41]) by {
      assert [b2][1..] == [];
    }
  }

  lemma LookalikeFails()
    ensures Inflated(Lookalike(), 1) == None
  {
    hide ByteBits, LowBits, ParseStored, Run, Pow2, BitOr, BitXor, ParseFramed;
    var body: seq<byte> := Lookalike()[2..];
    var bits := ByteBits(body);
    OpensStored(body);
    var r2 := bits[3..];
    assert |r2| == 5 + 8 * (|body| - 1);
    ModEight(5, |body| - 1);
    ParseStoredBytes(r2, body[1..]);
    Pow2Values();
    OrAdds(0xfe, 0xff, 8);
    OrAdds(0x41, 0x01, 8);
    XorOnes(0xfffe, 16);
  }

  /** Bits that open with a zero byte are read as a stored block, not the last. */
  lemma OpensStored(body: seq<byte>)
    requires body != [] && body[0] == 0
    ensures var bits := ByteBits(body);
      && ParseFramed(bits) == (
        var p := ParseStored(bits[3..]);
        if p == None then None else Some((false, p.value.0, p.value.1)))
      && bits[3..][5..] == ByteBits(body[1..])
  {
    hide ParseStored;
    var bits := ByteBits(body);
    Zeros(8);
    assert bits[..1] == [false] && bits[1..][..2] == [false, false];
    assert Value([false]) == 0 by { assert [false][1..] == []; }
    assert Value([false, false]) == 0 by { assert [false, false][1..] == [false]; }
    assert bits[1..][2..] == bits[3..];
  }

  lemma {:induction false} Zeros(n: nat)
    ensures forall i :: 0 <= i < n ==> !LowBits(0, n)[i]
  {
    if n > 0 {
      Zeros(n - 1);
    }
  }

  // ---- encoders ----

  /** The bytes of a whole number of them. */
  function Pack(bits: Bits): (bytes: seq<byte>)
    requires |bits| % 8 == 0
  {
    BytesOf(bits, |bits| / 8)
  }

  lemma PackedBits(bits: Bits)
    requires |bits| % 8 == 0
    ensures ByteBits(Pack(bits)) == bits
  {
    BitsOfBytes(bits, |bits| / 8);
    assert bits[..8 * (|bits| / 8)] == bits;
  }

  /** Whatever an encoder writes by the format, padding stored blocks with zeros, comes back. */
  lemma EncodedInflates(blocks: seq<Block>, tail: Bits, out: seq<byte>)
    requires StreamOk(blocks, tail) && |StreamBits(blocks, tail)| % 8 == 0
    requires BlocksInRange(blocks) && Run([], blocks) == Some(out)
    requires blocks[0].Stored? && blocks[0].pad != [] ==> !blocks[0].pad[0]
    ensures Inflated(Pack(StreamBits(blocks, tail)), |out|) == Some(out)
  {
    hide StreamOk, StreamBits, Run, Inflated;
    PackedBits(StreamBits(blocks, tail));
    UnpaddedInflates(Pack(StreamBits(blocks, tail)), blocks, tail, out);
  }

  /** A reference encoder: one block of literals with the fixed codes. */
  function Literals(data: seq<byte>): (tokens: seq<Token>)
    ensures |tokens| == |data| && forall i :: 0 <= i < |data| ==> tokens[i] == Literal(data[i])
  {
    seq(|data|, i requires 0 <= i < |data| => Literal(data[i]))
  }

  lemma {:induction false} LiteralsRun(out: seq<byte>, data: seq<byte>)
    ensures TokensInRange(Literals(data)) && RunTokens(out, Literals(data)) == Some(out + data)
    decreases |data|
  {
    if data == [] {
      assert out + data == out && Literals(data) == [];
    } else {
      LiteralsRun(out + [data[0]], data[1..]);
      assert Literals(data)[1..] == Literals(data[1..]);
      assert out + [data[0]] + data[1..] == out + data;
    }
  }

  lemma {:induction false} CountConcat(a: seq<nat>, b: seq<nat>, len: nat)
    ensures CountIn(a + b, len) == CountIn(a, len) + CountIn(b, len)
  {
    if b == [] {
      assert a + b == a;
    } else {
      var n := |b| - 1;
      assert (a + b)[..|a + b| - 1] == a + b[..n];
      CountConcat(a, b[..n], len);
    }
  }

  lemma {:induction false} CountRepeat(value: nat, n: nat, len: nat)
    ensures CountIn(Repeat(value, n), len) == if value == len then n else 0
  {
    if n > 0 {
      assert Repeat(value, n)[..n - 1] == Repeat(value, n - 1);
      CountRepeat(value, n - 1, len);
    }
  }

  lemma FixedCounts(len: nat)
    ensures CountIn(FixedLiterals(), len) ==
      if len == 7 then 24 else if len == 8 then 152 else if len == 9 then 112 else 0
    ensures CountIn(FixedDistances(), len) == if len == 5 then 30 else 0
  {
    hide CountIn;
    var a, b, c, d := Repeat(8, 144), Repeat(9, 112), Repeat(7, 24), Repeat(8, 8);
    CountConcat(a + b + c, d, len);
    CountConcat(a + b, c, len);
    CountConcat(a, b, len);
    CountRepeat(8, 144, len);
    CountRepeat(9, 112, len);
    CountRepeat(7, 24, len);
    CountRepeat(8, 8, len);
    CountRepeat(5, DIST_CODES, len);
  }

  lemma {:induction false} FixedSums(len: nat)
    ensures KraftSum(FixedLiterals(), len) <= Pow2(len) && KraftSum(FixedDistances(), len) <= Pow2(len)
    ensures len < 7 ==> KraftSum(FixedLiterals(), len) == 0
    ensures len == 7 ==> KraftSum(FixedLiterals(), len) == 24
    ensures len == 8 ==> KraftSum(FixedLiterals(), len) == 200
    ensures len < 5 ==> KraftSum(FixedDistances(), len) == 0
  {
    hide CountIn, FixedLiterals, FixedDistances;
    if len > 0 {
      FixedSums(len - 1);
      FixedCounts(len);
      Pow2Values();
      assert Pow2(9) == 2 * Pow2(8);
    }
  }

  /** The codes of section 3.2.6 satisfy Kraft's inequality, so every symbol of them can be written. */
  lemma FixedCodes(s: nat)
    ensures s < LIT_CODES ==> HasCode(FixedLiterals(), s)
    ensures s < DIST_CODES ==> HasCode(FixedDistances(), s)
  {
    hide HasCode, KraftSum, Pow2;
    FixedSums(MAX_BITS);
    EverySymbolCodedIffKraft(FixedLiterals());
    EverySymbolCodedIffKraft(FixedDistances());
  }

  function LiteralsBits(data: seq<byte>): Bits {
    LiteralsOk(data);
    FramedBits(true, Block.Fixed(Literals(data)), [])
  }

  /** The block, and zeros to the end of its last byte. */
  function EncodeLiterals(data: seq<byte>): seq<byte> {
    var bits := LiteralsBits(data);
    var padding := (8 - |bits| % 8) % 8;
    WholeBytes(|bits|);
    Pack(bits + LowBits(0, padding))
  }

  lemma WholeBytes(n: nat)
    ensures (n + (8 - n % 8) % 8) % 8 == 0
  {
  }

  lemma LiteralsOk(data: seq<byte>)
    ensures TokensOk(FixedLiterals(), FixedDistances(), Literals(data))
  {
    hide HasCode;
    FixedCodes(END_OF_BLOCK);
    forall i | 0 <= i < |data|
      ensures HasCode(FixedLiterals(), data[i])
    {
      FixedCodes(data[i]);
    }
  }

  /** Every byte string encoded by the reference encoder inflates to itself. */
  lemma LiteralsRoundTrip(data: seq<byte>)
    ensures Inflated(EncodeLiterals(data), |data|) == Some(data)
  {
    hide Inflated, TokensOk, FixedLiterals, FixedDistances, Pack, LowBits, TokensBits, RunTokens;
    LiteralsOk(data);
    var block := Block.Fixed(Literals(data));
    var bits := LiteralsBits(data);
    var tail := LowBits(0, (8 - |bits| % 8) % 8);
    WholeBytes(|bits|);
    LiteralsRun([], data);
    assert Run([], [block]) == RunTokens([], Literals(data)) by { assert [block][1..] == []; }
    assert [] + data == data;
    assert StreamBits([block], tail) == bits + tail;
    EncodedInflates([block], tail, data);
  }

  // ---- the tables of section 3.2.5 ----

  /** The length a copy token stands for, and the distance. */
  function CopyLength(t: Token): nat
    requires t.Copy? && TokenInRange(t)
  {
    LengthBase()[t.lsym] + t.lextra
  }

  function CopyDistance(t: Token): nat
    requires t.Copy? && TokenInRange(t)
  {
    DistanceBase()[t.dsym] + t.dextra
  }

  predicate ExtrasFit(t: Token) {
    && t.Copy? && TokenInRange(t)
    && t.lextra < Pow2(LengthExtra()[t.lsym]) && t.dextra < Pow2(DistanceExtra()[t.dsym])
  }

  predicate StandsFor(t: Token, length: nat, distance: nat) {
    ExtrasFit(t) && CopyLength(t) == length && CopyDistance(t) == distance
  }

  lemma SmallPowers()
    ensures Pow2(0) == 1 && Pow2(1) == 2 && Pow2(2) == 4 && Pow2(3) == 8 && Pow2(4) == 16 && Pow2(5) == 32
    ensures Pow2(6) == 64 && Pow2(7) == 128 && Pow2(8) == 256 && Pow2(9) == 512 && Pow2(10) == 1024
    ensures Pow2(11) == 2048 && Pow2(12) == 4096 && Pow2(13) == 8192
  {
    Pow2Values();
    assert Pow2(10) == 2 * Pow2(9) && Pow2(9) == 2 * Pow2(8);
    assert Pow2(13) == 2 * Pow2(12) && Pow2(12) == 2 * Pow2(11) && Pow2(11) == 2 * Pow2(10);
  }

  /** Each range starts where the one before ends, up to 258 and 32768. */
  lemma RangesMeet(i: nat)
    ensures i < 27 ==> LengthBase()[i + 1] == LengthBase()[i] + Pow2(LengthExtra()[i])
    ensures i == 27 ==> LengthBase()[i] + Pow2(LengthExtra()[i]) == 259
    ensures i < 29 ==> DistanceBase()[i + 1] == DistanceBase()[i] + Pow2(DistanceExtra()[i])
    ensures i == 29 ==> DistanceBase()[i] + Pow2(DistanceExtra()[i]) == 32769
  {
    SmallPowers();
    hide Pow2;
    if i <= 27 {
      LengthsMeet(i);
    }
    if i <= 29 {
      DistancesMeet(i);
    }
  }

  lemma LengthsMeet(i: nat)
    requires i <= 27
    ensures (if i < 27 then LengthBase()[i + 1] else 259) == LengthBase()[i] + Pow2(LengthExtra()[i])
  {
    SmallPowers();
    hide Pow2;
  }

  lemma DistancesMeet(i: nat)
    requires i <= 29
    ensures (if i < 29 then DistanceBase()[i + 1] else 32769) == DistanceBase()[i] + Pow2(DistanceExtra()[i])
  {
    SmallPowers();
    hide Pow2;
  }

  lemma {:induction false} LengthCode(length: nat, i: nat) returns (lsym: nat)
    requires i <= 27 && LengthBase()[i] <= length <= 258
    ensures lsym < 29 && LengthBase()[lsym] <= length < LengthBase()[lsym] + Pow2(LengthExtra()[lsym])
    decreases 28 - i
  {
    hide LengthBase, LengthExtra, Pow2;
    RangesMeet(i);
    if i == 27 || length < LengthBase()[i + 1] {
      return i;
    }
    lsym := LengthCode(length, i + 1);
  }

  lemma {:induction false} DistanceCode(distance: nat, i: nat) returns (dsym: nat)
    requires i <= 29 && DistanceBase()[i] <= distance <= 32768
    ensures dsym < 30 && DistanceBase()[dsym] <= distance < DistanceBase()[dsym] + Pow2(DistanceExtra()[dsym])
    decreases 30 - i
  {
    hide DistanceBase, DistanceExtra, Pow2;
    RangesMeet(i);
    if i == 29 || distance < DistanceBase()[i + 1] {
      return i;
    }
    dsym := DistanceCode(distance, i + 1);
  }

  /** Every length from 3 to 258 and every distance from 1 to 32768 has a token, and no others do. */
  lemma EveryMatchHasToken(length: nat, distance: nat)
    ensures (3 <= length <= 258 && 1 <= distance <= 32768) <==>
      exists t :: StandsFor(t, length, distance)
  {
    hide Pow2;
    if 3 <= length <= 258 && 1 <= distance <= 32768 {
      var lsym := LengthCode(length, 0);
      var dsym := DistanceCode(distance, 0);
      var t := Copy(lsym, length - LengthBase()[lsym], dsym, distance - DistanceBase()[dsym]);
      assert StandsFor(t, length, distance);
    }
    if exists t :: StandsFor(t, length, distance) {
      var t :| StandsFor(t, length, distance);
      RangesBound(t);
    }
  }

  lemma RangesBound(t: Token)
    requires ExtrasFit(t)
    ensures 3 <= CopyLength(t) <= 258 && 1 <= CopyDistance(t) <= 32768
  {
    hide Pow2;
    LengthsUpTo(t.lsym);
    DistancesUpTo(t.dsym);
  }

  lemma {:induction false} LengthsUpTo(i: nat)
    requires i < 29
    ensures 3 <= LengthBase()[i] && LengthBase()[i] + Pow2(LengthExtra()[i]) <= 259
    decreases 29 - i
  {
    hide LengthBase, LengthExtra, Pow2;
    LastLength();
    RangesMeet(i);
    if i < 27 {
      LengthsUpTo(i + 1);
    }
    FirstLength(i);
  }

  lemma LastLength()
    ensures LengthBase()[28] + Pow2(LengthExtra()[28]) == 259
  {
  }

  lemma FirstLength(i: nat)
    requires i < 29
    ensures 3 <= LengthBase()[i]
  {
  }

  lemma {:induction false} DistancesUpTo(i: nat)
    requires i < 30
    ensures DistanceBase()[i] + Pow2(DistanceExtra()[i]) <= 32769
    decreases 30 - i
  {
    hide DistanceBase, DistanceExtra, Pow2;
    RangesMeet(i);
    if i < 29 {
      DistancesUpTo(i + 1);
    }
  }
}
