/**
 What the tables and fields of the compressed format are, told without them:
 the numbers of sections 3.2.2 to 3.2.7 of RFC 1951 and section 2.2 of RFC 1950.
*/
module InflateLaws {
  import opened BitStrings
  import opened Canonical
  import opened Deflate
  import opened Inflate
  import opened InflateTheorems
  import opened Sequences
  import opened Wrappers

  // ---- the code length code (section 3.2.7) ----

  /** A length as it was given, or zero. */
  function GivenAt(given: seq<nat>, i: nat): nat {
    if i < |given| then given[i] else 0
  }

  /** Up from 8 at every other place, and down from it at those between. */
  lemma OrderLaw()
    ensures var order := CodeOrder();
      && order[0] == 16 && order[1] == 17 && order[2] == 18 && order[3] == 0
      && (forall j :: 0 <= j < 8 ==> order[4 + 2 * j] == 8 + j)
      && (forall j :: 1 <= j < 8 ==> order[3 + 2 * j] == 8 - j)
  {
  }

  lemma GivenTo(given: seq<nat>, i: nat, sym: nat)
    requires |given| <= 19 && i < 19 && sym == CodeOrder()[i]
    ensures CodeLengthCode(given)[sym] == GivenAt(given, i)
  {
    hide CodeLengthCode, CodeOrder;
    CodeLengthCodeAt(given, i);
  }

  /** The first four are of symbols 16, 17, 18 and 0; the others go up and down from 8. */
  lemma CodeLengthLaw(given: seq<nat>)
    requires |given| <= 19
    ensures var code := CodeLengthCode(given);
      && code[16] == GivenAt(given, 0) && code[17] == GivenAt(given, 1) && code[18] == GivenAt(given, 2)
      && code[0] == GivenAt(given, 3)
      && (forall j :: 0 <= j < 8 ==> code[8 + j] == GivenAt(given, 4 + 2 * j))
      && (forall j :: 1 <= j < 8 ==> code[8 - j] == GivenAt(given, 3 + 2 * j))
  {
    hide CodeLengthCode, CodeOrder, GivenAt;
    OrderLaw();
    GivenTo(given, 0, 16);
    GivenTo(given, 1, 17);
    GivenTo(given, 2, 18);
    GivenTo(given, 3, 0);
    forall j | 0 <= j < 8
      ensures CodeLengthCode(given)[8 + j] == GivenAt(given, 4 + 2 * j)
    {
      GivenTo(given, 4 + 2 * j, 8 + j);
    }
    forall j | 1 <= j < 8
      ensures CodeLengthCode(given)[8 - j] == GivenAt(given, 3 + 2 * j)
    {
      GivenTo(given, 3 + 2 * j, 8 - j);
    }
  }

  // ---- the lengths of a dynamic header (section 3.2.7) ----

  /**
   A symbol up to 15 is a length; 16 with two bits more repeats the one before
   three to six times; 17 with three and 18 with seven are three to ten and
   eleven to 138 zeros.
  */
  lemma ItemLaw(code: seq<nat>, lengths: seq<nat>, total: nat, bits: Bits, sym: nat, rest: Bits)
    requires ReadSymbol(code, bits) == Some((sym, rest)) && sym < 19
    ensures ParseItem(code, bits).Some? <==>
      |rest| >= (if sym < 16 then 0 else if sym == 16 then 2 else if sym == 17 then 3 else 7)
    ensures ParseItem(code, bits).Some? ==>
      var (item, after) := ParseItem(code, bits).value;
      var n := if sym < 16 then 1
               else if sym == 16 then 3 + Value(rest[..2])
               else if sym == 17 then 3 + Value(rest[..3])
               else 11 + Value(rest[..7]);
      && after == rest[if sym < 16 then 0 else if sym == 16 then 2 else if sym == 17 then 3 else 7..]
      && (sym == 16 && lengths == [] ==> ApplyItem(lengths, item, total) == None)
      && (|lengths| + n > total ==> ApplyItem(lengths, item, total) == None)
      && ((sym == 16 ==> lengths != []) && |lengths| + n <= total ==>
            && ApplyItem(lengths, item, total).Some?
            && var more := ApplyItem(lengths, item, total).value;
               && |more| == |lengths| + n && more[..|lengths|] == lengths
               && forall k :: |lengths| <= k < |more| ==>
                    more[k] == if sym < 16 then sym else if sym == 16 then lengths[|lengths| - 1] else 0)
  {
    hide ReadSymbol;
    assert rest[0..] == rest;
  }

  lemma {:induction false} FieldsAt(n: nat, bits: Bits)
    requires ParseFields(n, bits).Some?
    ensures |bits| >= 3 * n && ParseFields(n, bits).value.1 == bits[3 * n..]
    ensures forall i :: 0 <= i < n ==> ParseFields(n, bits).value.0[i] == Value(bits[3 * i..3 * i + 3])
  {
    hide Value;
    if n > 0 {
      FieldsAt(n - 1, bits[3..]);
      var given := ParseFields(n, bits).value.0;
      assert bits[3..][3 * (n - 1)..] == bits[3 * n..];
      forall i | 0 <= i < n
        ensures given[i] == Value(bits[3 * i..3 * i + 3])
      {
        if i > 0 {
          assert bits[3..][3 * (i - 1)..3 * (i - 1) + 3] == bits[3 * i..3 * i + 3];
        }
      }
    }
  }

  lemma CountsAt(bits: Bits)
    requires ParseCounts(bits).Some?
    ensures var (hlit, hdist, given, rest) := ParseCounts(bits).value;
      && |bits| >= 14 && hlit == Value(bits[..5]) && hdist == Value(bits[5..10])
      && |given| == 4 + Value(bits[10..14]) && |bits| >= 14 + 3 * |given|
      && forall i :: 0 <= i < |given| ==> given[i] == Value(bits[14 + 3 * i..17 + 3 * i])
  {
    hide Value, ParseFields;
    assert bits[5..][..5] == bits[5..10] && bits[5..][5..] == bits[10..];
    assert bits[10..][..4] == bits[10..14] && bits[10..][4..] == bits[14..];
    var n := Value(bits[10..14]) + 4;
    FieldsAt(n, bits[14..]);
    forall i | 0 <= i < n
      ensures bits[14..][3 * i..3 * i + 3] == bits[14 + 3 * i..17 + 3 * i]
    {
    }
  }

  /** Five bits, five bits, four bits, then three bits for each length given: at least 257, 1 and 4 of each. */
  lemma HeaderLaw(bits: Bits)
    requires ParseHeader(bits).Some?
    ensures var (h, lengths, rest) := ParseHeader(bits).value;
      && |bits| >= 14 && |h.given| == 4 + Value(bits[10..14]) && |bits| >= 14 + 3 * |h.given|
      && (forall i :: 0 <= i < |h.given| ==> h.given[i] == Value(bits[14 + 3 * i..17 + 3 * i]))
      && HeaderOk(h) && |LiteralLengths(h)| == 257 + Value(bits[..5]) && |DistanceLengths(h)| == 1 + Value(bits[5..10])
      && LiteralLengths(h) + DistanceLengths(h) == lengths
  {
    hide ParseCounts, ParseHeader, Value, HeaderOk, HeaderBits, CodeLengthCode;
    ParseHeaderWrites(bits);
    CountsOf(bits);
    CountsAt(bits);
    hide HeaderLengths;
    var (h, lengths, rest) := ParseHeader(bits).value;
    HeaderOkLengths(h);
    assert lengths[..h.hlit + 257] + lengths[h.hlit + 257..] == lengths;
  }

  lemma HeaderOkLengths(h: Header)
    requires HeaderOk(h)
    ensures HeaderLengths(h).Some?
  {
  }

  lemma CountsOf(bits: Bits)
    requires ParseHeader(bits).Some?
    ensures ParseCounts(bits).Some?
    ensures var h, c := ParseHeader(bits).value.0, ParseCounts(bits).value;
      h.hlit == c.0 && h.hdist == c.1 && h.given == c.2
  {
    hide ParseCounts, ParseItems, CodeLengthCode;
  }

  // ---- blocks (section 3.2.3) ----

  /** The last block's bit, then the type, its low bit first. */
  lemma BlockLaw(bits: Bits)
    ensures ParseFramed(bits).Some? ==>
      && |bits| >= 3 && ParseFramed(bits).value.0 == bits[0] && !(bits[1] && bits[2])
      && var b := ParseFramed(bits).value.1;
         (b.Stored? <==> !bits[1] && !bits[2]) && (b.Fixed? <==> bits[1]) && (b.Dynamic? <==> bits[2])
  {
    if |bits| >= 3 {
      assert bits[..1] == [bits[0]] && bits[1..][..2] == [bits[1], bits[2]];
      OneBit(bits[0]);
      TwoBits(bits[1], bits[2]);
      hide Value, ParseStored, ParseTokens, ParseHeader;
    }
  }

  lemma OneBit(a: bool)
    ensures Value([a]) == if a then 1 else 0
  {
    assert [a][1..] == [];
  }

  lemma TwoBits(a: bool, b: bool)
    ensures Value([a, b]) == (if a then 1 else 0) + (if b then 2 else 0)
  {
    assert [a, b][1..] == [b];
    OneBit(b);
  }

  // ---- lengths and distances (section 3.2.5) ----

  /** How many bits follow a length symbol. */
  function ExtraOfLength(sym: nat): nat {
    if sym < 265 || sym == 285 then 0 else (sym - 261) / 4
  }

  /** The length that a symbol and the number in those bits are. */
  function LengthOf(sym: nat, extra: nat): int {
    if sym == 285 then 258
    else if sym < 265 then sym - 254
    else 3 + (4 + (sym - 261) % 4) * Pow2((sym - 261) / 4) + extra
  }

  function ExtraOfDistance(sym: nat): nat {
    if sym < 4 then 0 else sym / 2 - 1
  }

  function DistanceOf(sym: nat, extra: nat): nat {
    if sym < 4 then 1 + sym else 1 + (2 + sym % 2) * Pow2(sym / 2 - 1) + extra
  }

  lemma LengthsAre(sym: nat, extra: nat)
    requires 257 <= sym <= 285 && extra < Pow2(LengthExtra()[sym - 257])
    ensures LengthExtra()[sym - 257] == ExtraOfLength(sym) && LengthBase()[sym - 257] + extra == LengthOf(sym, extra)
  {
    SmallPowers();
    hide Pow2;
  }

  lemma DistancesAre(sym: nat, extra: nat)
    requires sym < 30 && extra < Pow2(DistanceExtra()[sym])
    ensures DistanceExtra()[sym] == ExtraOfDistance(sym) && DistanceBase()[sym] + extra == DistanceOf(sym, extra)
  {
    SmallPowers();
    hide Pow2;
  }

  /** Symbols below 256 are bytes, 256 ends the block, and those above 285 have no meaning. */
  lemma SymbolLaw(lit: seq<nat>, dist: seq<nat>, bits: Bits, sym: nat, rest: Bits)
    requires ReadSymbol(lit, bits) == Some((sym, rest))
    ensures sym < 256 ==> ParseToken(lit, dist, bits) == Some((Some(Literal(sym)), rest))
    ensures sym == 256 ==> ParseToken(lit, dist, bits) == Some((None, rest))
    ensures sym > 285 ==> ParseToken(lit, dist, bits) == None
  {
    hide ReadSymbol;
  }

  lemma CopyParts(lit: seq<nat>, dist: seq<nat>, bits: Bits, sym: nat, r1: Bits)
    requires ReadSymbol(lit, bits) == Some((sym, r1)) && 257 <= sym <= 285 && ParseToken(lit, dist, bits).Some?
    ensures var n := LengthExtra()[sym - 257];
      && |r1| >= n && ReadSymbol(dist, r1[n..]).Some?
      && var (dsym, r2) := ReadSymbol(dist, r1[n..]).value;
         && dsym < 30 && |r2| >= DistanceExtra()[dsym]
         && var m := DistanceExtra()[dsym];
            ParseToken(lit, dist, bits).value
              == (Some(Copy(sym - 257, Value(r1[..n]), dsym, Value(r2[..m]))), r2[m..])
  {
    hide ReadSymbol, Value, LengthExtra, DistanceExtra;
  }

  /** A copy puts so many bytes, each the one so far before it; it fails if that is before the beginning. */
  predicate Copies(t: Token, length: int, distance: int, out: seq<byte>)
    requires TokenInRange(t)
  {
    && length >= 3 && distance >= 1
    && if distance > |out| then RunToken(out, t) == None
       else
         && RunToken(out, t).Some?
         && var more := RunToken(out, t).value;
            && |more| == |out| + length && more[..|out|] == out
            && forall k :: |out| <= k < |more| ==> more[k] == more[k - distance]
  }

  lemma RunLaw(t: Token, out: seq<byte>)
    requires t.Copy? && TokenInRange(t)
    ensures Copies(t, LengthBase()[t.lsym] + t.lextra, DistanceBase()[t.dsym] + t.dextra, out)
  {
    assert LengthBase()[t.lsym] >= 3;
    hide LengthBase, DistanceBase;
    var distance := DistanceBase()[t.dsym] + t.dextra;
    if distance <= |out| {
      CopyRunRepeats(out, distance, LengthBase()[t.lsym] + t.lextra);
    }
  }

  /** The others are a length, and a distance follows. */
  lemma CopyLaw(lit: seq<nat>, dist: seq<nat>, bits: Bits, sym: nat, r1: Bits, out: seq<byte>)
    requires ReadSymbol(lit, bits) == Some((sym, r1)) && 257 <= sym <= 285 && ParseToken(lit, dist, bits).Some?
    ensures |r1| >= ExtraOfLength(sym) && ReadSymbol(dist, r1[ExtraOfLength(sym)..]).Some?
    ensures var (dsym, r2) := ReadSymbol(dist, r1[ExtraOfLength(sym)..]).value;
      && dsym < 30 && |r2| >= ExtraOfDistance(dsym)
      && var (t, rest) := ParseToken(lit, dist, bits).value;
         && t.Some? && rest == r2[ExtraOfDistance(dsym)..]
         && Copies(t.value, LengthOf(sym, Value(r1[..ExtraOfLength(sym)])),
                   DistanceOf(dsym, Value(r2[..ExtraOfDistance(dsym)])), out)
  {
    hide ParseToken, ReadSymbol, Value, LengthExtra, DistanceExtra, LengthBase, DistanceBase, Copies, Pow2, RunToken;
    hide LengthOf, DistanceOf, ExtraOfLength, ExtraOfDistance;
    CopyParts(lit, dist, bits, sym, r1);
    var n := LengthExtra()[sym - 257];
    FieldFits(r1[..n]);
    LengthsAre(sym, Value(r1[..n]));
    var (dsym, r2) := ReadSymbol(dist, r1[n..]).value;
    var m := DistanceExtra()[dsym];
    FieldFits(r2[..m]);
    DistancesAre(dsym, Value(r2[..m]));
    RunLaw(ParseToken(lit, dist, bits).value.0.value, out);
  }

  lemma FieldFits(bits: Bits)
    ensures Value(bits) < Pow2(|bits|)
  {
    LowBitsOfValue(bits);
  }

  // ---- the fixed codes (section 3.2.6) ----

  /** Eight bits from 00110000 on, nine from 110010000, seven from 0000000, eight from 11000000. */
  function FixedWord(sym: nat): Bits {
    if sym < 144 then CodeBits(48 + sym, 8)
    else if sym < 256 then CodeBits(256 + sym, 9)
    else if sym < 280 then CodeBits(sym - 256, 7)
    else CodeBits(sym - 88, 8)
  }

  lemma {:induction false} RanksInFixed(sym: nat)
    requires sym < 288
    ensures CountIn(FixedLiterals()[..sym], FixedLiterals()[sym]) ==
      if sym < 144 then sym else if sym < 256 then sym - 144 else if sym < 280 then sym - 256 else sym - 136
  {
    var all := FixedLiterals();
    var len := all[sym];
    hide CountIn, FixedLiterals;
    var front, middle, back := Repeat(8, 144), Repeat(9, 112), Repeat(7, 24);
    CountRepeat(8, 144, len);
    CountRepeat(9, 112, len);
    CountRepeat(7, 24, len);
    CountConcat(front, middle, len);
    CountConcat(front + middle, back, len);
    if sym < 144 {
      assert all[..sym] == Repeat(8, sym);
      CountRepeat(8, sym, len);
    } else if sym < 256 {
      assert all[..sym] == front + Repeat(9, sym - 144);
      CountRepeat(9, sym - 144, len);
      CountConcat(front, Repeat(9, sym - 144), len);
    } else if sym < 280 {
      assert all[..sym] == front + middle + Repeat(7, sym - 256);
      CountRepeat(7, sym - 256, len);
      CountConcat(front + middle, Repeat(7, sym - 256), len);
    } else {
      assert all[..sym] == front + middle + back + Repeat(8, sym - 280);
      CountRepeat(8, sym - 280, len);
      CountConcat(front + middle + back, Repeat(8, sym - 280), len);
    }
  }

  lemma {:induction false} FixedFirst(len: nat)
    requires len <= 9
    ensures First(FixedLiterals(), len) == if len < 8 then 0 else if len == 8 then 48 else 400
  {
    hide CountIn, FixedLiterals;
    if len > 1 {
      FixedFirst(len - 1);
      FixedCounts(len - 1);
    }
  }

  lemma FixedWordLaw(sym: nat)
    requires sym < 288
    ensures HasCode(FixedLiterals(), sym) && Codeword(FixedLiterals(), sym) == FixedWord(sym)
  {
    var len := FixedLiterals()[sym];
    FixedCodes(sym);
    RanksInFixed(sym);
    FixedFirst(len);
    hide CountIn, First, HasCode, CodeBits;
  }

  /** Distances are five bits, the first of them the highest. */
  lemma FixedDistanceLaw(sym: nat)
    requires sym < 30
    ensures HasCode(FixedDistances(), sym) && Codeword(FixedDistances(), sym) == CodeBits(sym, 5)
  {
    FixedCodes(sym);
    assert FixedDistances()[..sym] == Repeat(5, sym);
    CountRepeat(5, sym, 5);
    FixedDistanceFirst(5);
    hide CountIn, First, HasCode, CodeBits;
  }

  lemma {:induction false} FixedDistanceFirst(len: nat)
    requires len <= 5
    ensures First(FixedDistances(), len) == 0
  {
    hide CountIn, FixedDistances;
    if len > 1 {
      FixedDistanceFirst(len - 1);
      FixedCounts(len - 1);
    }
  }

  /** A text in the fixed code, and the end of the block, which is seven zeros. */
  function PlainBits(data: seq<byte>): Bits {
    if data == [] then CodeBits(0, 7) else FixedWord(data[0]) + PlainBits(data[1..])
  }

  lemma {:induction false} PlainIs(data: seq<byte>)
    ensures TokensOk(FixedLiterals(), FixedDistances(), Literals(data))
    ensures TokensBits(FixedLiterals(), FixedDistances(), Literals(data)) == PlainBits(data)
    decreases |data|
  {
    LiteralsOk(data);
    hide CodeBits, FixedLiterals, FixedDistances, HasCode, Codeword, FixedWord, TokensOk;
    if data == [] {
      FixedWordLaw(256);
      WordOfEnd();
      assert Literals(data) == [];
    } else {
      FixedWordLaw(data[0]);
      PlainIs(data[1..]);
      assert Literals(data)[1..] == Literals(data[1..]);
      assert Literals(data)[0] == Literal(data[0]);
    }
  }

  lemma WordOfEnd()
    ensures FixedWord(256) == CodeBits(0, 7)
  {
  }

  /** Bits that are one, one, zero and then a text in the fixed code inflate to the text, whatever follows. */
  lemma PlainInflates(input: seq<byte>, data: seq<byte>, tail: Bits)
    requires ByteBits(input) == [true, true, false] + PlainBits(data) + tail
    ensures Inflated(input, |data|) == Some(data)
  {
    hide Inflated, TokensOk, FixedLiterals, FixedDistances, ByteBits, TokensBits, PlainBits, StreamOk, StreamBits, Run;
    PlainIs(data);
    PlainStream(Literals(data), tail);
    PlainRun(data);
    UnpaddedInflates(input, [Block.Fixed(Literals(data))], tail, data);
  }

  lemma PlainRun(data: seq<byte>)
    ensures var block := Block.Fixed(Literals(data)); BlocksInRange([block]) && Run([], [block]) == Some(data)
  {
    hide RunTokens;
    var block := Block.Fixed(Literals(data));
    LiteralsRun([], data);
    assert [block][1..] == [] && [] + data == data;
  }

  lemma PlainStream(tokens: seq<Token>, tail: Bits)
    requires TokensOk(FixedLiterals(), FixedDistances(), tokens)
    ensures var block := Block.Fixed(tokens);
      && StreamOk([block], tail)
      && StreamBits([block], tail)
           == [true, true, false] + TokensBits(FixedLiterals(), FixedDistances(), tokens) + tail
  {
    OneInTwoBits();
    hide LowBits, TokensBits, FixedLiterals, FixedDistances, TokensOk;
    var bits := TokensBits(FixedLiterals(), FixedDistances(), tokens);
    assert [true] + ([true, false] + (bits + tail)) == [true, true, false] + bits + tail;
  }

  lemma OneInTwoBits()
    ensures LowBits(1, 2) == [true, false]
  {
    assert LowBits(0, 1) == [false];
  }

  // ---- stored bytes, and the zlib header ----

  /** One, the size in two bytes, its complement, and the bytes themselves. */
  lemma StoredInflates(data: seq<byte>, after: seq<byte>)
    requires |data| < 65536
    ensures var (low, high) := (|data| % 256, |data| / 256);
      Inflated([1, low, high, 255 - low, 255 - high] + data + after, |data|) == Some(data)
  {
    hide Inflated, LowBits, StoredHead, BlockBits, FramedBits, BlockOk;
    var (low, high) := (|data| % 256, |data| / 256);
    var block := Block.Stored([false, false, false, false, false], data);
    var rest := StoredHead(low, high) + data + after;
    var input: seq<byte> := [1] + rest;
    FirstByteOfEmpty();
    StoredIsOk(block.pad, data, after);
    StoredBytes(true, block.pad, low, high, data, after);
    assert input[1..] == rest;
    assert AfterFirst([block], ByteBits(after)) == ByteBits(after);
    assert ByteBits(input) == StreamBits([block], ByteBits(after));
    hide ByteBits, StreamBits, StreamOk;
    StoredRun(block);
    UnpaddedInflates(input, [block], ByteBits(after), data);
    Rejoined(low, high, data, after);
  }

  lemma StoredRun(block: Block)
    requires block.Stored?
    ensures BlocksInRange([block]) && Run([], [block]) == Some(block.data)
  {
    assert [block][1..] == [] && [] + block.data == block.data;
  }

  lemma Rejoined(low: byte, high: byte, data: seq<byte>, after: seq<byte>)
    ensures [1] + (StoredHead(low, high) + data + after) == [1, low, high, 255 - low, 255 - high] + data + after
  {
  }

  /** The headers that zlib writes for its four levels of effort are passed over, and what they head is read. */
  lemma ZlibHeaders(flag: byte, body: seq<byte>, out: seq<byte>)
    requires flag in [0x01, 0x5e, 0x9c, 0xda]
    ensures Inflated([0x78, flag] + body, |out|) == Some(out) <==> exists blocks, tail :: Holds(body, blocks, tail, out)
  {
    hide Inflated, Holds;
    var input := [0x78, flag] + body;
    assert input[0] == 0x78 && input[1] == flag;
    assert 256 * 0x78 + 0x01 == 31 * 991 && 256 * 0x78 + 0x5e == 31 * 994;
    assert 256 * 0x78 + 0x9c == 31 * 996 && 256 * 0x78 + 0xda == 31 * 998;
    assert LooksLikeZlib(input) && Body(input) == body;
    InflatesExactly(input, |out|, out);
  }

  /** Another method, or a header that is no multiple of 31, heads nothing: the stream begins with it. */
  lemma NoHeader(input: seq<byte>, out: seq<byte>)
    requires |input| >= 2 && (input[0] % 16 != 8 || (256 * (input[0] as int) + input[1] as int) % 31 != 0)
    ensures Inflated(input, |out|) == Some(out) <==> exists blocks, tail :: Holds(input, blocks, tail, out)
  {
    hide Inflated, Holds;
    assert Body(input) == input;
    InflatesExactly(input, |out|, out);
  }
}
