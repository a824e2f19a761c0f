/**
 The decoder of src/inflate.cpp: a bit reader over bytes, Huffman decoding by
 counting codes per length, and the block loop writing into a bounded buffer,
 each proved to compute what module Deflate and module Canonical define.
*/
module Inflate {
  import opened BitStrings
  import opened Canonical
  import opened Deflate
  import opened Sequences
  import opened Wrappers

  class BitReader {
    const In: seq<byte>
    var At: nat
    var Buffer: nat
    var Count: nat

    constructor (input: seq<byte>)
      ensures Valid() && Rest() == ByteBits(input)
    {
      In, At, Buffer, Count := input, 0, 0, 0;
    }

    predicate Valid()
      reads this
    {
      At <= |In| && Count < 8 && Buffer < Pow2(Count)
    }

    /** The bits not yet taken: those buffered, then those of the bytes not yet read. */
    ghost function Rest(): (bits: Bits)
      requires Valid()
      reads this
      ensures |bits| == Count + 8 * (|In| - At)
    {
      LowBits(Buffer, Count) + ByteBits(In[At..])
    }

    /**
     Takes the next `need` bits as a number, or gives -1 with the bytes used
     up and the buffer as it was. At most 31 bits, as the result is an int.
    */
    method Take(need: nat) returns (r: int)
      requires Valid() && need <= 31
      modifies this`At, this`Buffer, this`Count
      ensures need <= 8 || r >= 0 ==> Valid()
      ensures match ReadBits(old(Rest()), need)
        case Some((v, rest)) => r == v < Pow2(need) && Rest() == rest
        case None => r == -1 && At == |In| && Buffer == old(Buffer) && Count == |old(Rest())|
    {
      hide LowBits, ByteBits, Pow2, Value, BitOr;
      ghost var bits := Rest();
      var value: nat := Buffer;
      while Count < need
        invariant At <= |In| && Count < need + 8
        invariant value < Pow2(Count) && Buffer == old(Buffer)
        invariant bits == LowBits(value, Count) + ByteBits(In[At..])
        invariant Buffer < Pow2(Count)
        decreases need + 8 - Count
      {
        if At >= |In| {
          return -1;
        }
        var b: nat := In[At];
        TakeByte(value, Count, In[At..]);
        Pow2Mono(Count, Count + 8);
        value := BitOr(value, b * Pow2(Count));
        At := At + 1;
        Count := Count + 8;
      }
      TakeLow(bits, value, need, Count, ByteBits(In[At..]));
      Buffer := value / Pow2(need);
      Count := Count - need;
      r := value % Pow2(need);
    }

    /** What a stored block does first: drop the bits up to the next byte. */
    method Align()
      requires Valid()
      modifies this`Buffer, this`Count
      ensures Valid() && Count == 0
      ensures Rest() == old(Rest())[|old(Rest())| % 8..] == ByteBits(In[At..])
    {
      ModEight(Count, |In| - At);
      Buffer := 0;
      Count := 0;
      assert LowBits(0, 0) == [];
    }
  }

  lemma TakeByte(value: nat, count: nat, bytes: seq<byte>)
    requires value < Pow2(count) && bytes != []
    ensures var v := BitOr(value, bytes[0] * Pow2(count));
      && v < Pow2(count + 8)
      && LowBits(v, count + 8) + ByteBits(bytes[1..]) == LowBits(value, count) + ByteBits(bytes)
  {
    hide LowBits, Pow2, BitOr;
    var b: nat := bytes[0];
    OrAdds(value, b, count);
    LowBitsStack(value, count, b, 8);
    Pow2Adds(count, 8);
    Pow2Values();
    ByteAbove(value, b, Pow2(count));
    Assoc(LowBits(value, count), LowBits(b, 8), ByteBits(bytes[1..]));
  }

  /** The low bits of the accumulated word are the field, the others stay buffered. */
  lemma TakeLow(bits: Bits, value: nat, need: nat, count: nat, later: Bits)
    requires need <= count && value < Pow2(count)
    requires bits == LowBits(value, count) + later
    ensures 0 <= value % Pow2(need) < Pow2(need) && 0 <= value / Pow2(need) < Pow2(count - need)
    ensures ReadBits(bits, need)
            == Some((value % Pow2(need), LowBits(value / Pow2(need), count - need) + later))
  {
    hide LowBits, Pow2;
    LowBitsSplit(value, need, count);
    QuotientBound(value, need, count);
    Assoc(LowBits(value % Pow2(need), need), LowBits(value / Pow2(need), count - need), later);
    ReadField(value % Pow2(need), need, LowBits(value / Pow2(need), count - need) + later);
  }

  lemma ByteAbove(v: nat, b: nat, p: nat)
    requires v < p && b < 256
    ensures v + b * p < p * 256
  {
    var d := 255 - b;
    assert p * 256 == b * p + d * p + p;
  }

  // ---- Huffman tables ----

  /** How many symbols have a length below `len` (and not zero): where the symbols of `len` start. */
  function Offset(L: seq<nat>, len: nat): nat {
    if len <= 1 then 0 else Offset(L, len - 1) + CountIn(L, len - 1)
  }

  /** The place of a symbol among all, by length and then by number. */
  function Position(L: seq<nat>, s: nat): nat
    requires s < |L|
  {
    Offset(L, L[s]) + CountIn(L[..s], L[s])
  }

  lemma {:induction false} OffsetMono(L: seq<nat>, a: nat, b: nat)
    requires 0 < a < b
    ensures Offset(L, a) + CountIn(L, a) <= Offset(L, b)
  {
    if a + 1 < b {
      OffsetMono(L, a, b - 1);
    }
  }

  lemma PositionsDiffer(L: seq<nat>, s: nat, t: nat)
    requires s < t < |L| && L[s] != 0 && L[t] != 0
    ensures Position(L, s) != Position(L, t)
  {
    RankBelowCount(L, s);
    RankBelowCount(L, t);
    if L[s] == L[t] {
      RanksDiffer(L, s, t);
    } else if L[s] < L[t] {
      OffsetMono(L, L[s], L[t]);
    } else {
      OffsetMono(L, L[t], L[s]);
    }
  }

  lemma {:induction false} OffsetSnoc(L: seq<nat>, len: nat)
    requires L != []
    ensures Offset(L, len) == Offset(L[..|L| - 1], len) + (if 1 <= L[|L| - 1] < len then 1 else 0)
  {
    if len > 1 {
      OffsetSnoc(L, len - 1);
    }
  }

  lemma {:induction false} OffsetBound(L: seq<nat>, len: nat)
    ensures Offset(L, len) <= |L|
  {
    if L == [] {
      OffsetOfNone(len);
    } else {
      OffsetSnoc(L, len);
      OffsetBound(L[..|L| - 1], len);
    }
  }

  lemma {:induction false} OffsetOfNone(len: nat)
    ensures Offset([], len) == 0
  {
    if len > 1 {
      OffsetOfNone(len - 1);
    }
  }

  lemma PositionBound(L: seq<nat>, s: nat)
    requires s < |L| && L[s] != 0
    ensures Position(L, s) < |L|
  {
    RankBelowCount(L, s);
    OffsetBound(L, L[s] + 1);
  }

  lemma CountNone(L: seq<nat>)
    ensures forall len: nat :: CountIn(L[..0], len) == 0
  {
  }

  lemma CountSnoc(L: seq<nat>, i: nat, len: nat)
    requires i < |L|
    ensures CountIn(L[..i + 1], len) == CountIn(L[..i], len) + (if L[i] == len then 1 else 0)
  {
    assert L[..i + 1][..i] == L[..i];
  }

  const TABLE := LIT_CODES + DIST_CODES + 2

  class Huffman {
    const Count: array<nat>
    const Symbol: array<nat>

    /** The tables of `L`: codes counted by length, and symbols in code order. */
    ghost predicate Represents(L: seq<nat>)
      reads Count, Symbol
    {
      && Count.Length == MAX_BITS + 1 && Symbol.Length == TABLE && |L| <= TABLE
      && (forall len :: 0 <= len <= MAX_BITS ==> Count[len] == CountIn(L, len))
      && (forall s :: 0 <= s < |L| ==> L[s] <= MAX_BITS)
      && (forall s :: 0 <= s < |L| && L[s] != 0 ==> Position(L, s) < TABLE && Symbol[Position(L, s)] == s)
    }

    constructor (lengths: Lengths)
      requires |lengths| <= TABLE
      ensures Represents(lengths) && fresh(Count) && fresh(Symbol)
    {
      Count := new nat[MAX_BITS + 1](_ => 0);
      Symbol := new nat[TABLE](_ => 0);
      new;
      hide CountIn, Offset, Position;
      CountLengths(Count, lengths);
      var offsets := new nat[MAX_BITS + 2](_ => 0);
      CodesStart(lengths);
      assert Offset(lengths, 0) == 0 by { OffsetOfZero(lengths); }
      for len := 1 to MAX_BITS + 1
        invariant forall k :: 0 <= k <= len ==> offsets[k] == Offset(lengths, k)
        invariant forall k :: 0 <= k <= MAX_BITS ==> Count[k] == CountIn(lengths, k)
      {
        CodesNext(lengths, len);
        offsets[len + 1] := offsets[len] + Count[len];
      }
      PlaceSymbols(Symbol, offsets, lengths);
    }
  }

  lemma OffsetOfZero(L: seq<nat>)
    ensures Offset(L, 0) == 0
  {
  }

  /** The first two loops of `construct`: codes per length. */
  method CountLengths(count: array<nat>, lengths: Lengths)
    requires count.Length == MAX_BITS + 1
    modifies count
    ensures forall len :: 0 <= len <= MAX_BITS ==> count[len] == CountIn(lengths, len)
  {
    var n := |lengths|;
    for len := 0 to MAX_BITS + 1
      invariant forall k :: 0 <= k < len ==> count[k] == 0
    {
      count[len] := 0;
    }
    for i := 0 to n
      invariant forall len :: 0 <= len <= MAX_BITS ==> count[len] == CountIn(lengths[..i], len)
    {
      assert lengths[..i + 1][..i] == lengths[..i];
      count[lengths[i]] := count[lengths[i]] + 1;
    }
    assert lengths[..n] == lengths;
  }

  /** The last loop of `construct`: each symbol to its place, the next free one of its length. */
  method PlaceSymbols(symbol: array<nat>, offsets: array<nat>, lengths: Lengths)
    requires symbol.Length == TABLE && |lengths| <= TABLE
    requires offsets.Length == MAX_BITS + 2 && offsets != symbol
    requires forall k :: 0 <= k <= MAX_BITS ==> offsets[k] == Offset(lengths, k)
    modifies symbol, offsets
    ensures forall s :: 0 <= s < |lengths| && lengths[s] != 0 ==>
      Position(lengths, s) < TABLE && symbol[Position(lengths, s)] == s
  {
    hide CountIn, Offset;
    CountNone(lengths);
    for i := 0 to |lengths|
      invariant forall k :: 0 <= k <= MAX_BITS && k != 0 ==>
        offsets[k] == Offset(lengths, k) + CountIn(lengths[..i], k)
      invariant forall s :: 0 <= s < i && lengths[s] != 0 ==>
        Position(lengths, s) < TABLE && symbol[Position(lengths, s)] == s
    {
      forall k: nat
        ensures CountIn(lengths[..i + 1], k) == CountIn(lengths[..i], k) + (if lengths[i] == k then 1 else 0)
      {
        CountSnoc(lengths, i, k);
      }
      if lengths[i] != 0 {
        PositionBound(lengths, i);
        forall s | 0 <= s < i && lengths[s] != 0
          ensures Position(lengths, s) != Position(lengths, i)
        {
          PositionsDiffer(lengths, s, i);
        }
        symbol[offsets[lengths[i]]] := i;
        offsets[lengths[i]] := offsets[lengths[i]] + 1;
      }
    }
  }

  /** A number below the codes of `len` is a code of it, of the symbol at that place in the table. */
  lemma CodeIsSymbol(L: seq<nat>, bits: Bits, len: nat, rank: nat) returns (s: nat)
    requires 0 < len <= |bits| && rank < CountIn(L, len)
    requires CodeValue(bits[..len]) == First(L, len) + rank
    ensures s < |L| && L[s] == len && Begins(L, s, bits) && Position(L, s) == Offset(L, len) + rank
  {
    s := RankIsTaken(L, len, rank);
  }

  /** A number at or past the codes of `len` is none of them. */
  lemma PastEveryCode(L: seq<nat>, bits: Bits, len: nat)
    requires 0 < len <= |bits|
    requires CodeValue(bits[..len]) >= First(L, len) + CountIn(L, len)
    ensures forall s: nat :: s < |L| && L[s] == len ==> !Begins(L, s, bits)
  {
    forall s: nat | s < |L| && L[s] == len
      ensures !Begins(L, s, bits)
    {
      RankBelowCount(L, s);
    }
  }

  /** Reads one symbol: the one whose canonical code comes next, else -1. */
  method Decode(s: BitReader, h: Huffman, ghost L: seq<nat>) returns (r: int)
    requires s.Valid() && h.Represents(L)
    modifies s
    ensures s.Valid()
    ensures match ReadSymbol(L, old(s.Rest()))
      case Some((symbol, rest)) => r == symbol && s.Rest() == rest
      case None => r == -1
  {
    hide LowBits, ByteBits, Pow2, CountIn, Begins, CodeValue, Value, BitOr, First, Offset, ReadSymbol, Position;
    CodesStart(L);
    ghost var bits := s.Rest();
    NoBits(bits);
    var code: nat, first: nat, index: nat := 0, 0, 0;
    for len := 1 to MAX_BITS + 1
      invariant s.Valid()
      invariant len - 1 <= |bits| && s.Rest() == bits[len - 1..]
      invariant code == 2 * CodeValue(bits[..len - 1])
      invariant first == First(L, len) && index == Offset(L, len) && first <= code
      invariant forall t: nat :: t < |L| && 0 < L[t] < len ==> !Begins(L, t, bits)
    {
      var bit := s.Take(1);
      if bit < 0 {
        TooShort(L, bits);
        NoSymbol(L, bits);
        return -1;
      }
      TookBit(bits, len - 1, bit);
      OrBit(code, bit);
      code := BitOr(code, bit);
      var count := h.Count[len];
      if code - count < first {
        ghost var t := CodeIsSymbol(L, bits, len, code - first);
        ReadSymbolFinds(L, t, bits);
        return h.Symbol[index + (code - first)];
      }
      PastEveryCode(L, bits, len);
      CodesNext(L, len);
      index := index + count;
      first := first + count;
      first := 2 * first;
      code := 2 * code;
    }
    TooShort(L, bits);
    NoSymbol(L, bits);
    return -1;
  }

  lemma CodesStart(L: seq<nat>)
    ensures First(L, 1) == 0 && Offset(L, 1) == 0
  {
  }

  lemma CodesNext(L: seq<nat>, len: nat)
    requires len > 0
    ensures First(L, len + 1) == 2 * (First(L, len) + CountIn(L, len))
    ensures Offset(L, len + 1) == Offset(L, len) + CountIn(L, len)
  {
  }

  lemma NoSymbol(L: seq<nat>, bits: Bits)
    requires forall t: nat :: t < |L| ==> !Begins(L, t, bits)
    ensures ReadSymbol(L, bits) == None
  {
  }

  lemma NoBits(bits: Bits)
    ensures CodeValue(bits[..0]) == 0
  {
  }

  lemma TooShort(L: seq<nat>, bits: Bits)
    ensures forall t: nat :: t < |L| && L[t] > |bits| ==> !Begins(L, t, bits)
    ensures forall t: nat :: Begins(L, t, bits) ==> t < |L| && L[t] > 0
  {
  }

  lemma TookBit(bits: Bits, n: nat, bit: nat)
    requires n < |bits| && bit == Value(bits[n..][..1])
    ensures bit < 2 && CodeValue(bits[..n + 1]) == 2 * CodeValue(bits[..n]) + bit
    ensures bits[n..][1..] == bits[n + 1..]
  {
    assert bits[n..][..1] == [bits[n]];
    assert Value([bits[n]]) == (if bits[n] then 1 else 0) + 2 * Value([bits[n]][1..]);
    CodeValueStep(bits, n);
  }

  // ---- blocks ----

  class Output {
    const At: array<byte>
    var Used: nat

    constructor (buffer: array<byte>)
      ensures At == buffer && Valid() && Contents() == []
    {
      At, Used := buffer, 0;
    }

    predicate Valid()
      reads this
    {
      Used <= At.Length
    }

    function Contents(): (bytes: seq<byte>)
      requires Valid()
      reads this, At
      ensures |bytes| == Used
    {
      At[..Used]
    }

    method Put(b: byte) returns (ok: bool)
      requires Valid()
      modifies this, At
      ensures Valid()
      ensures ok == (old(Used) < At.Length)
      ensures Contents() == if ok then old(Contents()) + [b] else old(Contents())
    {
      if Used >= At.Length {
        return false;
      }
      At[Used] := b;
      Used := Used + 1;
      return true;
    }

    /** The copy of a stored block's bytes. */
    method Append(bytes: seq<byte>)
      requires Valid() && Used + |bytes| <= At.Length
      modifies this, At
      ensures Valid() && Contents() == old(Contents()) + bytes
    {
      forall i | 0 <= i < |bytes| {
        At[Used + i] := bytes[i];
      }
      Used := Used + |bytes|;
      assert At[..old(Used)] == old(Contents());
    }

    /** Appends `length` bytes from `distance` back, one by one: the run may reach into itself. */
    method CopyFrom(distance: nat, length: nat)
      requires Valid() && 0 < distance <= Used && Used + length <= At.Length
      modifies this, At
      ensures Valid() && Contents() == CopyRun(old(Contents()), distance, length)
    {
      for i := 0 to length
        invariant Used == old(Used) + i <= At.Length
        invariant CopyRun(At[..Used], distance, length - i) == CopyRun(old(Contents()), distance, length)
      {
        ghost var before := At[..Used];
        At[Used] := At[Used - distance];
        Used := Used + 1;
        assert At[..Used] == before + [before[|before| - distance]];
      }
    }
  }

  /** What a block parsed to `parsed` must do to the output and the bits. */
  ghost predicate Does(parsed: Option<(Block, Bits)>, out: seq<byte>, size: nat,
                       ok: bool, out': seq<byte>, rest: Bits)
    requires parsed.Some? ==> BlockInRange(parsed.value.0)
  {
    var result := if parsed == None then None else RunBlock(out, parsed.value.0);
    && (ok <==> result.Some? && |result.value| <= size)
    && (ok ==> out' == result.value && rest == parsed.value.1)
  }

  lemma ByteBitsTwo(bytes: seq<byte>)
    requires |bytes| >= 2
    ensures ByteBits(bytes) == LowBits(bytes[0], 8) + LowBits(bytes[1], 8) + ByteBits(bytes[2..])
  {
    hide LowBits;
    assert bytes[1..][1..] == bytes[2..];
    Assoc(LowBits(bytes[0], 8), LowBits(bytes[1], 8), ByteBits(bytes[2..]));
  }

  lemma TwoBytes(bytes: seq<byte>)
    requires |bytes| >= 2
    ensures ReadBits(ByteBits(bytes), 16) == Some((BitOr(bytes[0], bytes[1] * Pow2(8)), ByteBits(bytes[2..])))
  {
    hide LowBits, BitOr, Pow2, ByteBits, ReadBits;
    var a: nat, b: nat := bytes[0], bytes[1];
    Pow2Values();
    OrAdds(a, b, 8);
    LowBitsStack(a, 8, b, 8);
    ByteBitsTwo(bytes);
    ReadField(a + b * Pow2(8), 16, ByteBits(bytes[2..]));
  }

  lemma SplitBytes(bytes: seq<byte>, len: nat)
    requires len <= |bytes|
    ensures BytesOf(ByteBits(bytes), len) == bytes[..len]
    ensures ByteBits(bytes)[8 * len..] == ByteBits(bytes[len..])
  {
    assert bytes == bytes[..len] + bytes[len..];
    ByteBitsConcat(bytes[..len], bytes[len..]);
    BytesOfBits(bytes[..len], ByteBits(bytes[len..]));
  }

  /** A stored block, byte by byte. */
  lemma ParseStoredBytes(bits: Bits, bytes: seq<byte>)
    requires bits[|bits| % 8..] == ByteBits(bytes)
    ensures |bytes| < 4 ==> ParseStored(bits) == None
    ensures |bytes| >= 4 ==>
      var len := BitOr(bytes[0], bytes[1] * Pow2(8));
      var nlen := BitOr(bytes[2], bytes[3] * Pow2(8));
      ParseStored(bits) ==
        if BitXor(len, 0xffff) != nlen || 4 + len > |bytes| then None
        else Some((Block.Stored(bits[..|bits| % 8], bytes[4..4 + len]), ByteBits(bytes[4 + len..])))
  {
    hide LowBits, ByteBits, BytesOf, Value, BitOr, BitXor;
    if |bytes| >= 4 {
      TwoBytes(bytes);
      TwoBytes(bytes[2..]);
      assert bytes[2..][2..] == bytes[4..];
      var len := BitOr(bytes[0], bytes[1] * Pow2(8));
      if 4 + len <= |bytes| {
        SplitBytes(bytes[4..], len);
        assert bytes[4..][..len] == bytes[4..4 + len] && bytes[4..][len..] == bytes[4 + len..];
      }
    }
  }

  method Stored(s: BitReader, out: Output) returns (ok: bool)
    requires s.Valid() && out.Valid()
    modifies s, out, out.At
    ensures s.Valid() && out.Valid()
    ensures Does(ParseStored(old(s.Rest())), old(out.Contents()), out.At.Length, ok, out.Contents(), s.Rest())
  {
    hide LowBits, ByteBits, BytesOf, BitOr, BitXor, ParseStored;
    s.Align();
    ghost var bytes := s.In[s.At..];
    ParseStoredBytes(old(s.Rest()), bytes);
    if s.At + 4 > |s.In| {
      return false;
    }
    var len: nat := BitOr(s.In[s.At], s.In[s.At + 1] * Pow2(8));
    var nlen: nat := BitOr(s.In[s.At + 2], s.In[s.At + 3] * Pow2(8));
    if BitXor(len, 0xffff) != nlen {
      return false;
    }
    s.At := s.At + 4;
    if s.At + len > |s.In| {
      return false;
    }
    if out.Used + len > out.At.Length {
      return false;
    }
    SliceOfRest(s.In, s.At - 4, 4, len);
    out.Append(s.In[s.At..s.At + len]);
    s.At := s.At + len;
    return true;
  }

  lemma SliceOfRest(bytes: seq<byte>, at: nat, skip: nat, len: nat)
    requires at + skip + len <= |bytes|
    ensures bytes[at + skip..at + skip + len] == bytes[at..][skip..skip + len]
    ensures bytes[at + skip + len..] == bytes[at..][skip + len..]
  {
  }

  // ---- compressed blocks ----

  /** The tokens already read, put before those still to come. */
  ghost function Prepend(done: seq<Token>, p: Option<(seq<Token>, Bits)>): Option<(seq<Token>, Bits)> {
    if p == None then None else Some((done + p.value.0, p.value.1))
  }

  ghost function TokensBlock(p: Option<(seq<Token>, Bits)>): Option<(Block, Bits)> {
    if p == None then None else Some((Block.Fixed(p.value.0), p.value.1))
  }

  lemma TokenStep(lit: seq<nat>, dist: seq<nat>, bits: Bits, done: seq<Token>, before: Bits)
    requires ParseTokens(lit, dist, bits) == Prepend(done, ParseTokens(lit, dist, before))
    ensures match ParseToken(lit, dist, before)
      case None => ParseTokens(lit, dist, bits) == None
      case Some((None, rest)) => ParseTokens(lit, dist, bits) == Some((done, rest))
      case Some((Some(t), rest)) =>
        ParseTokens(lit, dist, bits) == Prepend(done + [t], ParseTokens(lit, dist, rest))
  {
    hide ParseToken;
    match ParseToken(lit, dist, before)
    case None =>
    case Some((None, rest)) =>
      assert done + [] == done;
    case Some((Some(t), rest)) =>
      var p := ParseTokens(lit, dist, rest);
      if p.Some? {
        assert done + ([t] + p.value.0) == (done + [t]) + p.value.0;
      }
  }

  /** A token that has no meaning, or none within `size`, spoils every continuation. */
  lemma TokenSpoils(out: seq<byte>, done: seq<Token>, now: seq<byte>, t: Token, later: seq<Token>, size: nat)
    requires TokensInRange(done) && TokenInRange(t) && TokensInRange(later)
    requires RunTokens(out, done) == Some(now)
    requires RunToken(now, t).Some? ==> |RunToken(now, t).value| > size
    ensures TokensInRange(done + [t] + later)
    ensures var r := RunTokens(out, done + [t] + later); r.Some? ==> |r.value| > size
  {
    RunTokensAppend(out, done, [t]);
    RunTokensAppend(out, done + [t], later);
  }

  lemma TokenRuns(out: seq<byte>, done: seq<Token>, now: seq<byte>, t: Token)
    requires TokensInRange(done) && TokenInRange(t) && RunTokens(out, done) == Some(now)
    ensures TokensInRange(done + [t]) && RunTokens(out, done + [t]) == RunToken(now, t)
  {
    RunTokensAppend(out, done, [t]);
    assert RunTokens(now, [t]) == RunToken(now, t);
  }

  /** If the block so far cannot go on with `t`, the block fails. */
  lemma Stuck(lit: seq<nat>, dist: seq<nat>, bits: Bits, out: seq<byte>, size: nat,
              done: seq<Token>, now: seq<byte>, before: Bits, t: Token)
    requires TokensInRange(done) && TokenInRange(t) && RunTokens(out, done) == Some(now)
    requires ParseTokens(lit, dist, bits) == Prepend(done, ParseTokens(lit, dist, before))
    requires ParseToken(lit, dist, before).Some? && ParseToken(lit, dist, before).value.0 == Some(t)
    requires RunToken(now, t).Some? ==> |RunToken(now, t).value| > size
    ensures forall out', rest :: Does(TokensBlock(ParseTokens(lit, dist, bits)), out, size, false, out', rest)
  {
    hide ParseToken, ParseTokens, RunToken, RunTokens;
    TokenStep(lit, dist, bits, done, before);
    var rest := ParseToken(lit, dist, before).value.1;
    var p := ParseTokens(lit, dist, rest);
    if p.Some? {
      TokenSpoils(out, done, now, t, p.value.0, size);
    }
  }

  /** Reads one token: None for bits that are none, Some(None) at the end of the block. */
  method ReadToken(s: BitReader, lit: Huffman, dist: Huffman, ghost L: seq<nat>, ghost D: seq<nat>)
    returns (r: Option<Option<Token>>)
    requires s.Valid() && lit.Represents(L) && dist.Represents(D)
    modifies s
    ensures r.Some? ==> s.Valid()
    ensures match ParseToken(L, D, old(s.Rest()))
      case None => r == None
      case Some((t, rest)) => r == Some(t) && s.Rest() == rest
  {
    hide LengthExtra, DistanceExtra, LowBits, ByteBits, ReadSymbol, Value, Pow2;
    var symbol := Decode(s, lit, L);
    if symbol < 0 {
      return None;
    }
    if symbol < 256 {
      return Some(Some(Literal(symbol)));
    }
    if symbol == END_OF_BLOCK {
      return Some(None);
    }
    var index := symbol - 257;
    if index >= 29 {
      return None;
    }
    var lextra := s.Take(LengthExtra()[index]);
    if lextra < 0 {
      return None;
    }
    var dsym := Decode(s, dist, D);
    if dsym < 0 || dsym >= 30 {
      return None;
    }
    var dextra := s.Take(DistanceExtra()[dsym]);
    if dextra < 0 {
      return None;
    }
    return Some(Some(Copy(index, lextra, dsym, dextra)));
  }

  /** Does to the output what one token says, unless it reaches too far back or past the end. */
  method WriteToken(out: Output, t: Token) returns (ok: bool)
    requires out.Valid() && TokenInRange(t)
    modifies out, out.At
    ensures out.Valid()
    ensures var next := RunToken(old(out.Contents()), t);
      && (ok <==> next.Some? && |next.value| <= out.At.Length)
      && (ok ==> out.Contents() == next.value)
  {
    hide LengthBase, DistanceBase, CopyRun;
    match t
    case Literal(b) => ok := out.Put(b);
    case Copy(lsym, lextra, dsym, dextra) =>
      var length: nat := LengthBase()[lsym] + lextra;
      var distance: nat := DistanceBase()[dsym] + dextra;
      if distance > out.Used {
        return false;
      }
      if out.Used + length > out.At.Length {
        return false;
      }
      out.CopyFrom(distance, length);
      ok := true;
  }

  method Codes(s: BitReader, out: Output, lit: Huffman, dist: Huffman,
               ghost L: seq<nat>, ghost D: seq<nat>) returns (ok: bool)
    requires s.Valid() && out.Valid() && lit.Represents(L) && dist.Represents(D)
    modifies s, out, out.At
    ensures out.Valid() && (ok ==> s.Valid())
    ensures Does(TokensBlock(ParseTokens(L, D, old(s.Rest()))), old(out.Contents()), out.At.Length,
                 ok, out.Contents(), if ok then s.Rest() else [])
  {
    hide LowBits, ByteBits, RunTokens, RunToken, ParseTokens, ParseToken;
    ghost var bits, out0 := s.Rest(), out.Contents();
    ghost var done: seq<Token> := [];
    NoTokens(out0, ParseTokens(L, D, bits));
    while true
      invariant s.Valid() && out.Valid()
      invariant TokensInRange(done) && RunTokens(out0, done) == Some(out.Contents())
      invariant ParseTokens(L, D, bits) == Prepend(done, ParseTokens(L, D, s.Rest()))
      decreases |s.Rest()|
    {
      ghost var before, now := s.Rest(), out.Contents();
      TokenStep(L, D, bits, done, before);
      var read := ReadToken(s, lit, dist, L, D);
      if read == None {
        return false;
      }
      if read.value == None {
        return true;
      }
      var t := read.value.value;
      TokenRuns(out0, done, now, t);
      var fits := WriteToken(out, t);
      if !fits {
        Stuck(L, D, bits, out0, out.At.Length, done, now, before, t);
        return false;
      }
      done := done + [t];
    }
  }

  lemma NoTokens(out: seq<byte>, p: Option<(seq<Token>, Bits)>)
    ensures RunTokens(out, []) == Some(out) && Prepend([], p) == p
  {
    if p.Some? {
      assert [] + p.value.0 == p.value.0;
    }
  }

  /** The literal/length code lengths of section 3.2.6. */
  method FixedLengths() returns (lengths: array<nat>)
    ensures fresh(lengths) && lengths[..] == FixedLiterals()
  {
    lengths := new nat[LIT_CODES](_ => 0);
    var i := 0;
    while i < 144
      invariant 0 <= i <= 144
      invariant forall k :: 0 <= k < i ==> lengths[k] == 8
    {
      lengths[i], i := 8, i + 1;
    }
    while i < 256
      invariant 144 <= i <= 256
      invariant forall k :: 0 <= k < i ==> lengths[k] == if k < 144 then 8 else 9
    {
      lengths[i], i := 9, i + 1;
    }
    while i < 280
      invariant 256 <= i <= 280
      invariant forall k :: 0 <= k < i ==> lengths[k] == if k < 144 then 8 else if k < 256 then 9 else 7
    {
      lengths[i], i := 7, i + 1;
    }
    while i < LIT_CODES
      invariant 280 <= i <= LIT_CODES
      invariant forall k :: 0 <= k < i ==>
        lengths[k] == if k < 144 then 8 else if k < 256 then 9 else if k < 280 then 7 else 8
    {
      lengths[i], i := 8, i + 1;
    }
  }

  method FixedBlock(s: BitReader, out: Output) returns (ok: bool)
    requires s.Valid() && out.Valid()
    modifies s, out, out.At
    ensures out.Valid() && (ok ==> s.Valid())
    ensures Does(ParseBody(1, old(s.Rest())), old(out.Contents()), out.At.Length,
                 ok, out.Contents(), if ok then s.Rest() else [])
  {
    hide LowBits, ByteBits, ParseTokens, RunTokens;
    var lengths := FixedLengths();
    var distances := new nat[DIST_CODES](_ => 5);
    assert distances[..] == FixedDistances();
    var lit := new Huffman(lengths[..]);
    var dist := new Huffman(distances[..]);
    ok := Codes(s, out, lit, dist, FixedLiterals(), FixedDistances());
  }

  /** The first loop of a dynamic block: the lengths of the code length code, in their own order. */
  method ReadCodeLengths(s: BitReader, lengths: array<nat>, counts: nat) returns (ok: bool)
    requires s.Valid() && counts <= 19 <= lengths.Length
    requires forall k :: 0 <= k < 19 ==> lengths[k] == 0
    modifies s, lengths
    ensures ok ==> s.Valid()
    ensures match ParseFields(counts, old(s.Rest()))
      case None => !ok
      case Some((given, rest)) =>
        && ok && s.Rest() == rest
        && FieldsOk(given) && lengths[..19] == CodeLengthCode(given)
  {
    hide LowBits, ByteBits, Value, Pow2, CodeOrder;
    Pow2Values();
    ghost var bits := s.Rest();
    ghost var given: seq<nat> := [];
    NoFields(ParseFields(counts, bits));
    for i := 0 to counts
      invariant s.Valid() && |given| == i && FieldsOk(given)
      invariant lengths[..19] == CodeLengthCode(given)
      invariant ParseFields(counts, bits) == PrependFields(given, ParseFields(counts - i, s.Rest()))
    {
      ghost var before := s.Rest();
      var v := s.Take(3);
      if v < 0 {
        return false;
      }
      FieldStep(counts - i, before, given);
      lengths[CodeOrder()[i]] := v;
      given := given + [v];
      assert given[..i] == given[..|given| - 1];
    }
    FieldsDone(given, s.Rest());
    for i := counts to 19
      invariant s.Valid() && lengths[..19] == CodeLengthCode(given)
      invariant ParseFields(counts, bits) == Some((given, s.Rest()))
    {
      CodeLengthCodeAt(given, i);
      lengths[CodeOrder()[i]] := 0;
    }
    return true;
  }

  ghost function PrependFields(done: seq<nat>, p: Option<(seq<nat>, Bits)>): Option<(seq<nat>, Bits)> {
    if p == None then None else Some((done + p.value.0, p.value.1))
  }

  lemma NoFields(p: Option<(seq<nat>, Bits)>)
    ensures PrependFields([], p) == p
  {
    if p.Some? {
      assert [] + p.value.0 == p.value.0;
    }
  }

  lemma FieldsDone(done: seq<nat>, rest: Bits)
    ensures PrependFields(done, ParseFields(0, rest)) == Some((done, rest))
  {
    assert done + [] == done;
  }

  lemma FieldStep(n: nat, bits: Bits, done: seq<nat>)
    requires n > 0 && ReadBits(bits, 3).Some?
    ensures var (v, rest) := ReadBits(bits, 3).value;
      PrependFields(done, ParseFields(n, bits)) == PrependFields(done + [v], ParseFields(n - 1, rest))
  {
    var (v, rest) := ReadBits(bits, 3).value;
    var p := ParseFields(n - 1, rest);
    if p.Some? {
      assert done + ([v] + p.value.0) == done + [v] + p.value.0;
    }
  }

  ghost function PrependItems(done: seq<LengthItem>, p: Option<(seq<LengthItem>, seq<nat>, Bits)>)
    : Option<(seq<LengthItem>, seq<nat>, Bits)>
  {
    if p == None then None else Some((done + p.value.0, p.value.1, p.value.2))
  }

  /** What reading `item` makes of the rest of the lengths. */
  ghost predicate ItemDone(code: seq<nat>, lengths: seq<nat>, total: nat, bits: Bits, done: seq<LengthItem>,
                           item: LengthItem, rest: Bits)
  {
    var next := ApplyItem(lengths, item, total);
    if next == None then ParseItems(code, lengths, total, bits) == None
    else
      PrependItems(done, ParseItems(code, lengths, total, bits))
      == PrependItems(done + [item], ParseItems(code, next.value, total, rest))
  }

  lemma ItemStep(code: seq<nat>, lengths: seq<nat>, total: nat, bits: Bits, done: seq<LengthItem>)
    requires |lengths| != total
    ensures PrependItems([], ParseItems(code, lengths, total, bits)) == ParseItems(code, lengths, total, bits)
    ensures ParseItem(code, bits) == None ==> ParseItems(code, lengths, total, bits) == None
    ensures ParseItem(code, bits).Some? ==>
      ItemDone(code, lengths, total, bits, done, ParseItem(code, bits).value.0, ParseItem(code, bits).value.1)
  {
    hide ParseItem, ApplyItem;
    var p := ParseItems(code, lengths, total, bits);
    if p.Some? {
      assert [] + p.value.0 == p.value.0;
      var (item, rest) := ParseItem(code, bits).value;
      var q := ParseItems(code, ApplyItem(lengths, item, total).value, total, rest);
      assert done + ([item] + q.value.0) == done + [item] + q.value.0;
    }
  }

  /** The second loop of a dynamic block: lengths until there are `total`, some of them repeated. */
  method ReadLengths(s: BitReader, lengths: array<nat>, code: Huffman, ghost C: seq<nat>, total: nat)
    returns (ok: bool)
    requires s.Valid() && 0 < total <= lengths.Length && code.Represents(C) && |C| == 19
    requires lengths != code.Count && lengths != code.Symbol
    modifies s, lengths
    ensures ok ==> s.Valid()
    ensures match ParseItems(C, [], total, old(s.Rest()))
      case None => !ok
      case Some((_, result, rest)) => ok && s.Rest() == rest && lengths[..total] == result
  {
    hide LowBits, ByteBits, ParseItems, ParseItem;
    ghost var bits := s.Rest();
    ghost var done: seq<LengthItem> := [];
    ItemStep(C, [], total, bits, []);
    assert lengths[..0] == [];
    var index := 0;
    while index < total
      invariant s.Valid() && index <= total && code.Represents(C)
      invariant ParseItems(C, [], total, bits) == PrependItems(done, ParseItems(C, lengths[..index], total, s.Rest()))
      decreases total - index
    {
      ghost var so := lengths[..index];
      ItemStep(C, so, total, s.Rest(), done);
      var item := ReadItem(s, code, C);
      if item == None {
        return false;
      }
      done := done + [item.value];
      var symbol := item.value.sym;
      if symbol < 16 {
        lengths[index] := symbol;
        index := index + 1;
        assert lengths[..index] == so + [symbol];
        continue;
      }
      var value: nat := 0;
      var repeat: nat := 0;
      if symbol == 16 {
        if index == 0 {
          return false;
        }
        value := lengths[index - 1];
        repeat := 3 + item.value.extra;
      } else if symbol == 17 {
        repeat := 3 + item.value.extra;
      } else {
        repeat := 11 + item.value.extra;
      }
      if index + repeat > total {
        return false;
      }
      Fill(lengths, index, repeat, value);
      index := index + repeat;
    }
    EndOfItems(C, lengths[..total], total, s.Rest());
    return true;
  }

  /** A symbol of the code length code and the extra bits it takes. */
  method ReadItem(s: BitReader, code: Huffman, ghost C: seq<nat>) returns (r: Option<LengthItem>)
    requires s.Valid() && code.Represents(C)
    modifies s
    ensures s.Valid()
    ensures match ParseItem(C, old(s.Rest()))
      case None => r == None
      case Some((item, rest)) => r == Some(item) && s.Rest() == rest
  {
    hide LowBits, ByteBits, Value, Pow2, ReadSymbol;
    var symbol := Decode(s, code, C);
    if symbol < 0 {
      return None;
    }
    var extra := 0;
    if symbol < 16 {
      ReadNothing(s.Rest());
    } else if symbol == 16 {
      extra := s.Take(2);
    } else if symbol == 17 {
      extra := s.Take(3);
    } else {
      extra := s.Take(7);
    }
    if extra < 0 {
      return None;
    }
    return Some(LengthItem(symbol, extra));
  }

  /** The innermost loop: `lengths[index++] = value`, `repeat` times. */
  method Fill(lengths: array<nat>, index: nat, repeat: nat, value: nat)
    requires index + repeat <= lengths.Length
    modifies lengths
    ensures lengths[..index + repeat] == old(lengths[..index]) + Repeat(value, repeat)
  {
    for k := 0 to repeat
      invariant lengths[..index] == old(lengths[..index])
      invariant forall j :: index <= j < index + k ==> lengths[j] == value
    {
      lengths[index + k] := value;
    }
  }

  lemma ReadNothing(bits: Bits)
    ensures ReadBits(bits, 0) == Some((0, bits))
  {
    assert bits[0..] == bits;
  }

  lemma EndOfItems(code: seq<nat>, lengths: seq<nat>, total: nat, bits: Bits)
    requires |lengths| == total
    ensures ParseItems(code, lengths, total, bits) == Some(([], lengths, bits))
  {
  }

  /** The three counts a dynamic block starts with. */
  method ReadCounts(s: BitReader) returns (ok: bool, literals: nat, distances: nat, counts: nat)
    requires s.Valid()
    modifies s
    ensures s.Valid()
    ensures !ok ==> ParseCounts(old(s.Rest())) == None
    ensures ok ==> literals <= 288 && distances <= 32 && 4 <= counts <= 19
    ensures ok ==>
      var given := ParseFields(counts, s.Rest());
      && literals >= 257 && distances >= 1
      && ParseCounts(old(s.Rest()))
         == if given == None then None else Some((literals - 257, distances - 1, given.value.0, given.value.1))
  {
    hide LowBits, ByteBits, Value, Pow2, ParseFields;
    Pow2Values();
    var nlen := s.Take(5);
    var ndist := s.Take(5);
    var ncode := s.Take(4);
    if nlen < 0 || ndist < 0 || ncode < 0 {
      return false, 0, 0, 0;
    }
    return true, nlen + 257, ndist + 1, ncode + 4;
  }

  /** The header of a dynamic block: on success the literal/length and then the distance lengths. */
  method ReadHeader(s: BitReader, lengths: array<nat>) returns (ok: bool, literals: nat, distances: nat)
    requires s.Valid() && lengths.Length == TABLE && forall k :: 0 <= k < TABLE ==> lengths[k] == 0
    modifies s, lengths
    ensures ok ==> s.Valid()
    ensures match ParseHeader(old(s.Rest()))
      case None => !ok
      case Some((h, all, rest)) =>
        && ok && s.Rest() == rest && literals == h.hlit + 257 && distances == h.hdist + 1
        && literals + distances <= TABLE && lengths[..literals + distances] == all
  {
    hide LowBits, ByteBits, ParseFields, ParseItems, CodeLengthCode, ParseCounts;
    literals, distances := 0, 0;
    var read := false;
    var counts := 0;
    read, literals, distances, counts := ReadCounts(s);
    if !read {
      return false, 0, 0;
    }
    if literals > LIT_CODES || distances > DIST_CODES + 2 {
      assert false;
    }
    read := ReadCodeLengths(s, lengths, counts);
    if !read {
      return false, 0, 0;
    }
    ghost var given := ParseCounts(old(s.Rest())).value.2;
    CodeLengthCodeBound(given);
    var code := new Huffman(lengths[..19]);
    read := ReadLengths(s, lengths, code, CodeLengthCode(given), literals + distances);
    if !read {
      return false, 0, 0;
    }
    if lengths[END_OF_BLOCK] == 0 {
      return false, 0, 0;
    }
    return true, literals, distances;
  }

  method DynamicBlock(s: BitReader, out: Output) returns (ok: bool)
    requires s.Valid() && out.Valid()
    modifies s, out, out.At
    ensures out.Valid() && (ok ==> s.Valid())
    ensures Does(ParseBody(2, old(s.Rest())), old(out.Contents()), out.At.Length,
                 ok, out.Contents(), if ok then s.Rest() else [])
  {
    hide LowBits, ByteBits, ParseTokens, ParseHeader, RunTokens;
    var lengths := new nat[TABLE](_ => 0);
    var read, literals, distances := ReadHeader(s, lengths);
    if !read {
      return false;
    }
    ghost var all := ParseHeader(old(s.Rest())).value.1;
    var lit := new Huffman(lengths[..literals]);
    var dist := new Huffman(lengths[literals..literals + distances]);
    assert lengths[..literals] == all[..literals] && lengths[literals..literals + distances] == all[literals..];
    ok := Codes(s, out, lit, dist, all[..literals], all[literals..]);
  }

  method AnyBlock(s: BitReader, out: Output, btype: nat) returns (ok: bool)
    requires s.Valid() && out.Valid()
    modifies s, out, out.At
    ensures out.Valid() && (ok ==> s.Valid())
    ensures Does(ParseBody(btype, old(s.Rest())), old(out.Contents()), out.At.Length,
                 ok, out.Contents(), if ok then s.Rest() else [])
  {
    hide LowBits, ByteBits, ParseTokens, ParseHeader, ParseStored, RunTokens;
    match btype {
      case 0 => ok := Stored(s, out);
      case 1 => ok := FixedBlock(s, out);
      case 2 => ok := DynamicBlock(s, out);
      case _ => ok := false;
    }
  }

  // ---- the stream ----

  /** The compressed bytes: those after a zlib header (section 2.2 of RFC 1950), if there seems to be one. */
  predicate LooksLikeZlib(input: seq<byte>) {
    && |input| >= 2
    && input[0] % 16 == 8
    && (256 * (input[0] as int) + input[1] as int) % 31 == 0
  }

  function Body(input: seq<byte>): seq<byte> {
    if LooksLikeZlib(input) then input[2..] else input
  }

  ghost function PrependBlocks(done: seq<Block>, p: Option<(seq<Block>, Bits)>): Option<(seq<Block>, Bits)> {
    if p == None then None else Some((done + p.value.0, p.value.1))
  }

  lemma NoBlocks(p: Option<(seq<Block>, Bits)>)
    ensures Run([], []) == Some([]) && PrependBlocks([], p) == p
  {
    if p.Some? {
      assert [] + p.value.0 == p.value.0;
    }
  }

  lemma BlockStep(bits: Bits, done: seq<Block>, before: Bits)
    requires ParseStream(bits) == PrependBlocks(done, ParseStream(before))
    ensures match ParseFramed(before)
      case None => ParseStream(bits) == None
      case Some((final, b, rest)) =>
        if final then ParseStream(bits) == Some((done + [b], rest))
        else ParseStream(bits) == PrependBlocks(done + [b], ParseStream(rest))
  {
    hide ParseFramed;
    match ParseFramed(before)
    case None =>
    case Some((final, b, rest)) =>
      var p := ParseStream(rest);
      if !final && p.Some? {
        assert done + ([b] + p.value.0) == done + [b] + p.value.0;
      }
  }

  lemma BlockRuns(out: seq<byte>, done: seq<Block>, now: seq<byte>, b: Block, later: seq<Block>)
    requires BlocksInRange(done) && BlockInRange(b) && BlocksInRange(later)
    requires Run(out, done) == Some(now)
    ensures BlocksInRange(done + [b] + later) && Run(out, done + [b]) == RunBlock(now, b)
    ensures Run(out, done + [b] + later)
            == if RunBlock(now, b) == None then None else Run(RunBlock(now, b).value, later)
  {
    RunAppend(out, done, [b]);
    assert Run(now, [b]) == RunBlock(now, b);
    RunAppend(out, done + [b], later);
  }

  /** What the blocks in the bits decompress to. */
  ghost function StreamMeaning(bits: Bits): Option<seq<byte>> {
    var (blocks, _) :- ParseStream(bits);
    Run([], blocks)
  }

  /** A block that fails, or writes past `size`, fails the stream. */
  lemma BlockSpoils(bits: Bits, size: nat, done: seq<Block>, now: seq<byte>, before: Bits)
    requires BlocksInRange(done) && Run([], done) == Some(now)
    requires ParseStream(bits) == PrependBlocks(done, ParseStream(before))
    requires ParseFramed(before).Some? ==>
      var r := RunBlock(now, ParseFramed(before).value.1); r.Some? ==> |r.value| > size
    ensures StreamMeaning(bits).Some? ==> |StreamMeaning(bits).value| > size
  {
    hide ParseFramed, ParseStream, RunBlock, Run;
    BlockStep(bits, done, before);
    if ParseFramed(before).Some? {
      var (final, b, rest) := ParseFramed(before).value;
      if final {
        BlockRuns([], done, now, b, []);
        assert done + [b] + [] == done + [b];
      } else if ParseStream(rest).Some? {
        BlockRuns([], done, now, b, ParseStream(rest).value.0);
      }
    }
  }

  /** The block loop: succeeds exactly when the blocks have a meaning that fits, and writes it. */
  method Blocks(s: BitReader, out: Output) returns (ok: bool)
    requires s.Valid() && out.Valid() && out.Contents() == []
    modifies s, out, out.At
    ensures out.Valid()
    ensures var r := StreamMeaning(old(s.Rest()));
      && (ok <==> r.Some? && |r.value| <= out.At.Length)
      && (ok ==> out.Contents() == r.value)
  {
    hide LowBits, ByteBits, Value, Pow2, ParseStream, ParseBody, Run, RunBlock;
    ghost var bits := s.Rest();
    ghost var done: seq<Block> := [];
    NoBlocks(ParseStream(bits));
    Pow2Values();
    while true
      invariant s.Valid() && out.Valid()
      invariant BlocksInRange(done) && Run([], done) == Some(out.Contents())
      invariant ParseStream(bits) == PrependBlocks(done, ParseStream(s.Rest()))
      decreases |s.Rest()|
    {
      ghost var before, now := s.Rest(), out.Contents();
      BlockStep(bits, done, before);
      var last := s.Take(1);
      var btype := s.Take(2);
      if last < 0 || btype < 0 {
        BlockSpoils(bits, out.At.Length, done, now, before);
        return false;
      }
      var good := AnyBlock(s, out, btype);
      if !good {
        BlockSpoils(bits, out.At.Length, done, now, before);
        return false;
      }
      BlockRuns([], done, now, ParseFramed(before).value.1, []);
      done := done + [ParseFramed(before).value.1];
      if last != 0 {
        return true;
      }
    }
  }

  /** What the input decompresses to, if that is `size` bytes. */
  ghost function Inflated(input: seq<byte>, size: nat): Option<seq<byte>> {
    if |input| < 2 then None
    else
      var out :- StreamMeaning(ByteBits(Body(input)));
      if |out| == size then Some(out) else None
  }

  /**
   Decompresses `input` into the whole of `out`: succeeds exactly when the
   input holds a stream that means that many bytes, and writes those bytes.
  */
  method Inflate(input: seq<byte>, out: array<byte>) returns (ok: bool)
    modifies out
    ensures ok <==> Inflated(input, out.Length).Some?
    ensures ok ==> Inflated(input, out.Length) == Some(out[..])
  {
    hide LowBits, ByteBits, StreamMeaning, BitOr;
    if |input| < 2 {
      return false;
    }
    var at := 0;
    HeaderWord(input);
    if input[0] % 16 == 8 && BitOr(input[1], input[0] * Pow2(8)) % 31 == 0 {
      at := 2;
    }
    assert input[at..] == Body(input);
    var s := new BitReader(input[at..]);
    var o := new Output(out);
    ok := Blocks(s, o);
    if !ok {
      return false;
    }
    assert o.Used == out.Length ==> o.Contents() == out[..];
    return o.Used == out.Length;
  }

  lemma HeaderWord(input: seq<byte>)
    requires |input| >= 2
    ensures BitOr(input[1], input[0] * Pow2(8)) == 256 * (input[0] as int) + input[1] as int
  {
    Pow2Values();
    OrAdds(input[1], input[0], 8);
  }
}
