/**
 The compressed data format of section 3.2 of RFC 1951, but for two limits
 that the source does not keep: 288 literal codes are allowed, and codes that
 are over-subscribed or incomplete. What a stream of blocks is, the bits that
 write it, the bytes it means, and the reading of bits back into blocks.
 Reading and writing are proved inverse.
*/
module Deflate {
  import opened BitStrings
  import opened Canonical
  import opened Sequences
  import opened Wrappers

  const LIT_CODES := 288
  const DIST_CODES := 30
  const END_OF_BLOCK := 256

  function LengthBase(): (base: seq<nat>)
    ensures |base| == 29
  {
    [3, 4, 5, 6, 7, 8, 9, 10, 11, 13, 15, 17, 19, 23, 27, 31, 35, 43, 51, 59, 67, 83,
     99, 115, 131, 163, 195, 227, 258]
  }

  function LengthExtra(): (extra: seq<nat>)
    ensures |extra| == 29 && forall i :: 0 <= i < 29 ==> extra[i] <= 5
  {
    [0, 0, 0, 0, 0, 0, 0, 0, 1, 1, 1, 1, 2, 2, 2, 2, 3, 3, 3, 3, 4, 4, 4, 4, 5, 5, 5, 5, 0]
  }

  function DistanceBase(): (base: seq<nat>)
    ensures |base| == 30 && forall i :: 0 <= i < 30 ==> base[i] > 0
  {
    [1, 2, 3, 4, 5, 7, 9, 13, 17, 25, 33, 49, 65, 97, 129, 193, 257, 385, 513, 769,
     1025, 1537, 2049, 3073, 4097, 6145, 8193, 12289, 16385, 24577]
  }

  function DistanceExtra(): (extra: seq<nat>)
    ensures |extra| == 30 && forall i :: 0 <= i < 30 ==> extra[i] <= 13
  {
    [0, 0, 0, 0, 1, 1, 2, 2, 3, 3, 4, 4, 5, 5, 6, 6, 7, 7, 8, 8, 9, 9, 10, 10, 11, 11,
     12, 12, 13, 13]
  }

  function CodeOrder(): (order: seq<nat>)
    ensures |order| == 19 && forall i :: 0 <= i < 19 ==> order[i] < 19
  {
    [16, 17, 18, 0, 8, 7, 9, 6, 10, 5, 11, 4, 12, 3, 13, 2, 14, 1, 15]
  }

  type Bits = seq<bool>

  // ---- plain fields ----

  function ReadBits(bits: Bits, n: nat): Option<(nat, Bits)> {
    if |bits| < n then None else Some((Value(bits[..n]), bits[n..]))
  }

  lemma ReadField(v: nat, n: nat, rest: Bits)
    requires v < Pow2(n)
    ensures ReadBits(LowBits(v, n) + rest, n) == Some((v, rest))
  {
    var bits := LowBits(v, n) + rest;
    assert bits[..n] == LowBits(v, n) && bits[n..] == rest;
    ValueOfLowBits(v, n);
  }

  lemma ReadBitsWrites(bits: Bits, n: nat)
    requires n <= |bits|
    ensures var (v, rest) := ReadBits(bits, n).value;
      v < Pow2(n) && bits == LowBits(v, n) + rest
  {
    hide Value, LowBits, Pow2;
    LowBitsOfValue(bits[..n]);
    assert bits == bits[..n] + bits[n..];
  }

  // ---- the compressed tokens of a block (section 3.2.5) ----

  datatype Token =
    | Literal(b: byte)
    | Copy(lsym: nat, lextra: nat, dsym: nat, dextra: nat)

  /** Whether the token's symbols are ones section 3.2.5 gives a meaning. */
  predicate TokenInRange(t: Token) {
    t.Copy? ==> t.lsym < 29 && t.dsym < 30
  }

  predicate TokensInRange(tokens: seq<Token>) {
    forall i :: 0 <= i < |tokens| ==> TokenInRange(tokens[i])
  }

  predicate TokenOk(lit: seq<nat>, dist: seq<nat>, t: Token) {
    match t
    case Literal(b) => HasCode(lit, b)
    case Copy(lsym, lextra, dsym, dextra) =>
      && lsym < 29 && HasCode(lit, 257 + lsym) && lextra < Pow2(LengthExtra()[lsym])
      && dsym < 30 && HasCode(dist, dsym) && dextra < Pow2(DistanceExtra()[dsym])
  }

  function TokenBits(lit: seq<nat>, dist: seq<nat>, t: Token): (bits: Bits)
    requires TokenOk(lit, dist, t)
    ensures |bits| > 0
  {
    match t
    case Literal(b) => Codeword(lit, b)
    case Copy(lsym, lextra, dsym, dextra) =>
      Codeword(lit, 257 + lsym)
      + (LowBits(lextra, LengthExtra()[lsym])
         + (Codeword(dist, dsym) + LowBits(dextra, DistanceExtra()[dsym])))
  }

  predicate TokensOk(lit: seq<nat>, dist: seq<nat>, tokens: seq<Token>) {
    HasCode(lit, END_OF_BLOCK) && forall i :: 0 <= i < |tokens| ==> TokenOk(lit, dist, tokens[i])
  }

  /** The tokens and the end-of-block code. */
  function TokensBits(lit: seq<nat>, dist: seq<nat>, tokens: seq<Token>): Bits
    requires TokensOk(lit, dist, tokens)
  {
    if tokens == [] then Codeword(lit, END_OF_BLOCK)
    else TokenBits(lit, dist, tokens[0]) + TokensBits(lit, dist, tokens[1..])
  }

  /** One token, or None inside Some for the end of the block. */
  ghost function ParseToken(lit: seq<nat>, dist: seq<nat>, bits: Bits): (r: Option<(Option<Token>, Bits)>)
    ensures r.Some? ==> |r.value.1| < |bits|
    ensures r.Some? && r.value.0.Some? ==> TokenInRange(r.value.0.value)
  {
    var (sym, r1) :- ReadSymbol(lit, bits);
    if sym < 256 then Some((Some(Literal(sym)), r1))
    else if sym == END_OF_BLOCK then Some((None, r1))
    else if sym - 257 >= 29 then None
    else
      var (lextra, r2) :- ReadBits(r1, LengthExtra()[sym - 257]);
      var (dsym, r3) :- ReadSymbol(dist, r2);
      if dsym >= 30 then None
      else
        var (dextra, r4) :- ReadBits(r3, DistanceExtra()[dsym]);
        Some((Some(Copy(sym - 257, lextra, dsym, dextra)), r4))
  }

  ghost function ParseTokens(lit: seq<nat>, dist: seq<nat>, bits: Bits): (r: Option<(seq<Token>, Bits)>)
    ensures r.Some? ==> |r.value.1| < |bits| && TokensInRange(r.value.0)
    decreases |bits|
  {
    var (t, r1) :- ParseToken(lit, dist, bits);
    if t == None then Some(([], r1))
    else
      var (tokens, rest) :- ParseTokens(lit, dist, r1);
      Some(([t.value] + tokens, rest))
  }

  lemma ParseTokenBits(lit: seq<nat>, dist: seq<nat>, t: Token, rest: Bits)
    requires TokenOk(lit, dist, t)
    ensures ParseToken(lit, dist, TokenBits(lit, dist, t) + rest) == Some((Some(t), rest))
  {
    hide LengthBase, LengthExtra, DistanceBase, DistanceExtra, LowBits, Value, Pow2, Codeword, HasCode, ReadSymbol;
    hide ReadBits;
    match t
    case Literal(b) => ReadCodeword(lit, b, rest);
    case Copy(lsym, lextra, dsym, dextra) =>
      var w4 := LowBits(dextra, DistanceExtra()[dsym]) + rest;
      var w3 := Codeword(dist, dsym) + w4;
      var w2 := LowBits(lextra, LengthExtra()[lsym]) + w3;
      var c1, f1 := Codeword(lit, 257 + lsym), LowBits(lextra, LengthExtra()[lsym]);
      var c2, f2 := Codeword(dist, dsym), LowBits(dextra, DistanceExtra()[dsym]);
      Assoc(c2, f2, rest);
      Assoc(f1, c2 + f2, rest);
      Assoc(c1, f1 + (c2 + f2), rest);
      ReadCodeword(lit, 257 + lsym, w2);
      ReadField(lextra, LengthExtra()[lsym], w3);
      ReadCodeword(dist, dsym, w4);
      ReadField(dextra, DistanceExtra()[dsym], rest);
  }

  lemma {:induction false} ParseTokensBits(lit: seq<nat>, dist: seq<nat>, tokens: seq<Token>, rest: Bits)
    requires TokensOk(lit, dist, tokens)
    ensures ParseTokens(lit, dist, TokensBits(lit, dist, tokens) + rest) == Some((tokens, rest))
  {
    hide TokenBits, TokenOk, Codeword, HasCode, ReadSymbol, ReadBits;
    if tokens == [] {
      ReadCodeword(lit, END_OF_BLOCK, rest);
    } else {
      var tail := TokensBits(lit, dist, tokens[1..]) + rest;
      assert TokensBits(lit, dist, tokens) + rest == TokenBits(lit, dist, tokens[0]) + tail;
      ParseTokenBits(lit, dist, tokens[0], tail);
      ParseTokensBits(lit, dist, tokens[1..], rest);
      assert [tokens[0]] + tokens[1..] == tokens;
    }
  }

  lemma ParseTokenWrites(lit: seq<nat>, dist: seq<nat>, bits: Bits)
    requires ParseToken(lit, dist, bits).Some?
    ensures var (t, rest) := ParseToken(lit, dist, bits).value;
      if t == None then HasCode(lit, END_OF_BLOCK) && bits == Codeword(lit, END_OF_BLOCK) + rest
      else TokenOk(lit, dist, t.value) && bits == TokenBits(lit, dist, t.value) + rest
  {
    hide LengthBase, LengthExtra, DistanceBase, DistanceExtra, LowBits, Value, Pow2, Codeword, HasCode, ReadSymbol;
    ReadSymbolWrites(lit, bits);
    var (sym, r1) := ReadSymbol(lit, bits).value;
    if sym > 256 {
      var n := LengthExtra()[sym - 257];
      ReadBitsWrites(r1, n);
      var (lextra, r2) := ReadBits(r1, n).value;
      ReadSymbolWrites(dist, r2);
      var (dsym, r3) := ReadSymbol(dist, r2).value;
      ReadBitsWrites(r3, DistanceExtra()[dsym]);
      var (dextra, r4) := ReadBits(r3, DistanceExtra()[dsym]).value;
      var a, b := Codeword(lit, sym), LowBits(lextra, n);
      var c, d := Codeword(dist, dsym), LowBits(dextra, DistanceExtra()[dsym]);
      Assoc(c, d, r4);
      Assoc(b, c + d, r4);
      Assoc(a, b + (c + d), r4);
    }
  }

  lemma {:induction false} ParseTokensWrites(lit: seq<nat>, dist: seq<nat>, bits: Bits)
    requires ParseTokens(lit, dist, bits).Some?
    ensures var (tokens, rest) := ParseTokens(lit, dist, bits).value;
      TokensOk(lit, dist, tokens) && bits == TokensBits(lit, dist, tokens) + rest
    decreases |bits|
  {
    hide ParseToken, TokenBits, TokenOk, Codeword, HasCode;
    ParseTokenWrites(lit, dist, bits);
    var (t, r1) := ParseToken(lit, dist, bits).value;
    if t != None {
      ParseTokensWrites(lit, dist, r1);
      var (tokens, rest) := ParseTokens(lit, dist, r1).value;
      assert ([t.value] + tokens)[1..] == tokens;
    }
  }

  // ---- the code lengths of a dynamic block (section 3.2.7) ----

  /** A symbol of the code length code, with the extra bits it takes. */
  datatype LengthItem = LengthItem(sym: nat, extra: nat)

  function ItemExtra(sym: nat): nat {
    if sym < 16 then 0 else if sym == 16 then 2 else if sym == 17 then 3 else 7
  }

  predicate ItemOk(code: seq<nat>, item: LengthItem) {
    HasCode(code, item.sym) && item.extra < Pow2(ItemExtra(item.sym))
  }

  predicate ItemsOk(code: seq<nat>, items: seq<LengthItem>) {
    forall i :: 0 <= i < |items| ==> ItemOk(code, items[i])
  }

  function ItemBits(code: seq<nat>, item: LengthItem): Bits
    requires ItemOk(code, item)
  {
    Codeword(code, item.sym) + LowBits(item.extra, ItemExtra(item.sym))
  }

  function ItemsBits(code: seq<nat>, items: seq<LengthItem>): Bits
    requires ItemsOk(code, items)
  {
    if items == [] then [] else ItemBits(code, items[0]) + ItemsBits(code, items[1..])
  }

  function Repeat(value: nat, n: nat): (r: seq<nat>)
    ensures |r| == n && forall i :: 0 <= i < n ==> r[i] == value
  {
    seq(n, _ => value)
  }

  predicate Bounded(lengths: seq<nat>) {
    forall i :: 0 <= i < |lengths| ==> lengths[i] <= MAX_BITS
  }

  /** The lengths after one more item; a repeat may not pass `total`, nor come first. */
  function ApplyItem(lengths: seq<nat>, item: LengthItem, total: nat): (r: Option<seq<nat>>)
    ensures r.Some? ==> |lengths| < |r.value| <= total && lengths <= r.value
    ensures r.Some? && Bounded(lengths) ==> Bounded(r.value)
  {
    var added :=
      if item.sym < 16 then Some([item.sym])
      else if item.sym == 16 then
        if lengths == [] then None else Some(Repeat(lengths[|lengths| - 1], 3 + item.extra))
      else if item.sym == 17 then Some(Repeat(0, 3 + item.extra))
      else Some(Repeat(0, 11 + item.extra));
    if added == None || |lengths| + |added.value| > total then None
    else Some(lengths + added.value)
  }

  /** Exactly `total` lengths, literal/length and distance lengths in one sequence. */
  function RunItems(lengths: seq<nat>, items: seq<LengthItem>, total: nat): (r: Option<seq<nat>>)
    ensures r.Some? ==> |r.value| == total
    decreases |items|
  {
    if |lengths| == total then (if items == [] then Some(lengths) else None)
    else if items == [] then None
    else
      var next :- ApplyItem(lengths, items[0], total);
      RunItems(next, items[1..], total)
  }

  ghost function ParseItem(code: seq<nat>, bits: Bits): (r: Option<(LengthItem, Bits)>)
    ensures r.Some? ==> |r.value.1| < |bits|
  {
    var (sym, r1) :- ReadSymbol(code, bits);
    var (extra, rest) :- ReadBits(r1, ItemExtra(sym));
    Some((LengthItem(sym, extra), rest))
  }

  /** The items that complete `lengths` to `total`, the result, and what follows. */
  ghost function ParseItems(code: seq<nat>, lengths: seq<nat>, total: nat, bits: Bits)
    : (r: Option<(seq<LengthItem>, seq<nat>, Bits)>)
    ensures r.Some? ==> |r.value.1| == total && |r.value.2| <= |bits|
    ensures r.Some? && Bounded(lengths) ==> Bounded(r.value.1)
    decreases |bits|
  {
    if |lengths| == total then Some(([], lengths, bits))
    else
      var (item, r1) :- ParseItem(code, bits);
      var next :- ApplyItem(lengths, item, total);
      var (items, result, rest) :- ParseItems(code, next, total, r1);
      Some(([item] + items, result, rest))
  }

  lemma ParseItemBits(code: seq<nat>, item: LengthItem, rest: Bits)
    requires ItemOk(code, item)
    ensures ParseItem(code, ItemBits(code, item) + rest) == Some((item, rest))
  {
    var w := LowBits(item.extra, ItemExtra(item.sym)) + rest;
    assert ItemBits(code, item) + rest == Codeword(code, item.sym) + w;
    ReadCodeword(code, item.sym, w);
    ReadField(item.extra, ItemExtra(item.sym), rest);
  }

  lemma {:induction false} ParseItemsBits(code: seq<nat>, lengths: seq<nat>, items: seq<LengthItem>,
                                          total: nat, rest: Bits)
    requires ItemsOk(code, items)
    requires RunItems(lengths, items, total).Some?
    ensures ParseItems(code, lengths, total, ItemsBits(code, items) + rest)
            == Some((items, RunItems(lengths, items, total).value, rest))
    decreases |items|
  {
    if items == [] {
      assert ItemsBits(code, items) + rest == rest;
    } else {
      var tail := ItemsBits(code, items[1..]) + rest;
      Assoc(ItemBits(code, items[0]), ItemsBits(code, items[1..]), rest);
      ParseItemBits(code, items[0], tail);
      ParseItemsBits(code, ApplyItem(lengths, items[0], total).value, items[1..], total, rest);
      assert [items[0]] + items[1..] == items;
    }
  }

  lemma ParseItemWrites(code: seq<nat>, bits: Bits)
    requires ParseItem(code, bits).Some?
    ensures var (item, rest) := ParseItem(code, bits).value;
      ItemOk(code, item) && bits == ItemBits(code, item) + rest
  {
    ReadSymbolWrites(code, bits);
    var (sym, r1) := ReadSymbol(code, bits).value;
    ReadBitsWrites(r1, ItemExtra(sym));
  }

  lemma {:induction false} ParseItemsWrites(code: seq<nat>, lengths: seq<nat>, total: nat, bits: Bits)
    requires ParseItems(code, lengths, total, bits).Some?
    ensures var (items, result, rest) := ParseItems(code, lengths, total, bits).value;
      && ItemsOk(code, items)
      && RunItems(lengths, items, total) == Some(result)
      && bits == ItemsBits(code, items) + rest
    decreases |bits|
  {
    if |lengths| != total {
      ParseItemWrites(code, bits);
      var (item, r1) := ParseItem(code, bits).value;
      var next := ApplyItem(lengths, item, total).value;
      ParseItemsWrites(code, next, total, r1);
      var (items, result, rest) := ParseItems(code, next, total, r1).value;
      assert ([item] + items)[1..] == items;
      Assoc(ItemBits(code, item), ItemsBits(code, items), rest);
    }
  }

  /** The 19 lengths of the code length code, given in the order of section 3.2.7. */
  function CodeLengthCode(given: seq<nat>): (code: seq<nat>)
    requires |given| <= 19
    ensures |code| == 19
  {
    if given == [] then Repeat(0, 19)
    else
      var n := |given| - 1;
      CodeLengthCode(given[..n])[CodeOrder()[n] := given[n]]
  }

  lemma OrderIsInjective()
    ensures forall i, j :: 0 <= i < j < 19 ==> CodeOrder()[i] != CodeOrder()[j]
  {
  }

  /** Each length given goes to its symbol in the order of section 3.2.7, and the others are zero. */
  lemma {:induction false} CodeLengthCodeAt(given: seq<nat>, i: nat)
    requires |given| <= 19 && i < 19
    ensures CodeLengthCode(given)[CodeOrder()[i]] == if i < |given| then given[i] else 0
  {
    if given != [] {
      hide CodeOrder;
      OrderIsInjective();
      var n := |given| - 1;
      CodeLengthCodeAt(given[..n], i);
      assert i != n ==> CodeOrder()[i] != CodeOrder()[n];
    }
  }

  lemma {:induction false} CodeLengthCodeBound(given: seq<nat>)
    requires |given| <= 19 && FieldsOk(given)
    ensures forall k :: 0 <= k < 19 ==> CodeLengthCode(given)[k] < 8
  {
    if given != [] {
      CodeLengthCodeBound(given[..|given| - 1]);
    }
  }

  predicate FieldsOk(given: seq<nat>) {
    forall i :: 0 <= i < |given| ==> given[i] < 8
  }

  function FieldsBits(given: seq<nat>): Bits {
    if given == [] then [] else LowBits(given[0], 3) + FieldsBits(given[1..])
  }

  function ParseFields(n: nat, bits: Bits): (r: Option<(seq<nat>, Bits)>)
    ensures r.Some? ==> |r.value.0| == n && |r.value.1| <= |bits|
  {
    if n == 0 then Some(([], bits))
    else
      var (v, r1) :- ReadBits(bits, 3);
      var (vs, rest) :- ParseFields(n - 1, r1);
      Some(([v] + vs, rest))
  }

  lemma {:induction false} ParseFieldsBits(given: seq<nat>, rest: Bits)
    requires FieldsOk(given)
    ensures ParseFields(|given|, FieldsBits(given) + rest) == Some((given, rest))
  {
    if given == [] {
      assert FieldsBits(given) + rest == rest;
    } else {
      var tail := FieldsBits(given[1..]) + rest;
      Assoc(LowBits(given[0], 3), FieldsBits(given[1..]), rest);
      Pow2Values();
      ReadField(given[0], 3, tail);
      ParseFieldsBits(given[1..], rest);
      assert [given[0]] + given[1..] == given;
    }
  }

  lemma {:induction false} ParseFieldsWrites(n: nat, bits: Bits)
    requires ParseFields(n, bits).Some?
    ensures var (given, rest) := ParseFields(n, bits).value;
      FieldsOk(given) && bits == FieldsBits(given) + rest
  {
    if n > 0 {
      ReadBitsWrites(bits, 3);
      var (v, r1) := ReadBits(bits, 3).value;
      ParseFieldsWrites(n - 1, r1);
      var (vs, rest) := ParseFields(n - 1, r1).value;
      assert ([v] + vs)[1..] == vs;
      Pow2Values();
      Assoc(LowBits(v, 3), FieldsBits(vs), rest);
    }
  }

  // ---- blocks ----

  datatype Header = Header(hlit: nat, hdist: nat, given: seq<nat>, items: seq<LengthItem>)

  /** All the lengths a header describes, those of the literals and then those of the distances. */
  function HeaderLengths(h: Header): (r: Option<seq<nat>>)
    ensures r.Some? ==> |r.value| == h.hlit + 257 + (h.hdist + 1)
  {
    RunItems([], h.items, h.hlit + 257 + (h.hdist + 1))
  }

  predicate CountsOk(h: Header) {
    h.hlit < 32 && h.hdist < 32 && 4 <= |h.given| <= 19 && FieldsOk(h.given)
  }

  predicate HeaderOk(h: Header) {
    && CountsOk(h)
    && ItemsOk(CodeLengthCode(h.given), h.items)
    && HeaderLengths(h).Some?
    && HeaderLengths(h).value[END_OF_BLOCK] != 0
  }

  function LiteralLengths(h: Header): (lit: seq<nat>)
    requires HeaderLengths(h).Some?
    ensures |lit| == h.hlit + 257
  {
    HeaderLengths(h).value[..h.hlit + 257]
  }

  function DistanceLengths(h: Header): (dist: seq<nat>)
    requires HeaderLengths(h).Some?
    ensures |dist| == h.hdist + 1
  {
    HeaderLengths(h).value[h.hlit + 257..]
  }

  function CountsBits(hlit: nat, hdist: nat, given: seq<nat>): Bits
    requires |given| >= 4
  {
    LowBits(hlit, 5) + (LowBits(hdist, 5) + (LowBits(|given| - 4, 4) + FieldsBits(given)))
  }

  function HeaderBits(h: Header): Bits
    requires HeaderOk(h)
  {
    CountsBits(h.hlit, h.hdist, h.given) + ItemsBits(CodeLengthCode(h.given), h.items)
  }

  function ParseCounts(bits: Bits): (r: Option<(nat, nat, seq<nat>, Bits)>)
    ensures r.Some? ==> |r.value.2| >= 4 && |r.value.3| < |bits|
  {
    var (hlit, r1) :- ReadBits(bits, 5);
    var (hdist, r2) :- ReadBits(r1, 5);
    var (hclen, r3) :- ReadBits(r2, 4);
    var (given, rest) :- ParseFields(hclen + 4, r3);
    Some((hlit, hdist, given, rest))
  }

  /** The header, the lengths it describes, and what follows. */
  ghost function ParseHeader(bits: Bits): (r: Option<(Header, seq<nat>, Bits)>)
    ensures r.Some? ==> |r.value.1| == r.value.0.hlit + 257 + (r.value.0.hdist + 1)
    ensures r.Some? ==> |r.value.2| < |bits| && Bounded(r.value.1)
  {
    var (hlit, hdist, given, r1) :- ParseCounts(bits);
    if |given| > 19 then None
    else
      var (items, lengths, rest) :- ParseItems(CodeLengthCode(given), [], hlit + 257 + (hdist + 1), r1);
      if lengths[END_OF_BLOCK] == 0 then None
      else Some((Header(hlit, hdist, given, items), lengths, rest))
  }

  lemma ParseCountsBits(hlit: nat, hdist: nat, given: seq<nat>, rest: Bits)
    requires hlit < 32 && hdist < 32 && 4 <= |given| <= 19 && FieldsOk(given)
    ensures ParseCounts(CountsBits(hlit, hdist, given) + rest) == Some((hlit, hdist, given, rest))
  {
    var f1, f2, f3, f4 := LowBits(hlit, 5), LowBits(hdist, 5), LowBits(|given| - 4, 4), FieldsBits(given);
    Assoc(f1, f2 + (f3 + f4), rest);
    Assoc(f2, f3 + f4, rest);
    Assoc(f3, f4, rest);
    Pow2Values();
    ReadField(hlit, 5, f2 + (f3 + (f4 + rest)));
    ReadField(hdist, 5, f3 + (f4 + rest));
    ReadField(|given| - 4, 4, f4 + rest);
    ParseFieldsBits(given, rest);
  }

  lemma ParseCountsWrites(bits: Bits)
    requires ParseCounts(bits).Some?
    ensures var (hlit, hdist, given, rest) := ParseCounts(bits).value;
      && hlit < 32 && hdist < 32 && 4 <= |given| <= 19 && FieldsOk(given)
      && bits == CountsBits(hlit, hdist, given) + rest
  {
    ReadBitsWrites(bits, 5);
    var (hlit, r1) := ReadBits(bits, 5).value;
    ReadBitsWrites(r1, 5);
    var (hdist, r2) := ReadBits(r1, 5).value;
    ReadBitsWrites(r2, 4);
    var (hclen, r3) := ReadBits(r2, 4).value;
    ParseFieldsWrites(hclen + 4, r3);
    var (given, rest) := ParseFields(hclen + 4, r3).value;
    Pow2Values();
    var f1, f2, f3, f4 := LowBits(hlit, 5), LowBits(hdist, 5), LowBits(hclen, 4), FieldsBits(given);
    Assoc(f3, f4, rest);
    Assoc(f2, f3 + f4, rest);
    Assoc(f1, f2 + (f3 + f4), rest);
  }

  lemma ParseHeaderBits(h: Header, rest: Bits)
    requires HeaderOk(h)
    ensures ParseHeader(HeaderBits(h) + rest) == Some((h, HeaderLengths(h).value, rest))
  {
    hide ParseCounts, CountsBits, ParseItems, RunItems, ItemsBits, CodeLengthCode, FieldsOk, ItemsOk;
    var code := CodeLengthCode(h.given);
    var w := ItemsBits(code, h.items) + rest;
    Assoc(CountsBits(h.hlit, h.hdist, h.given), ItemsBits(code, h.items), rest);
    ParseCountsBits(h.hlit, h.hdist, h.given, w);
    ParseItemsBits(code, [], h.items, h.hlit + 257 + (h.hdist + 1), rest);
  }

  lemma ParseHeaderWrites(bits: Bits)
    requires ParseHeader(bits).Some?
    ensures var (h, lengths, rest) := ParseHeader(bits).value;
      HeaderOk(h) && HeaderLengths(h) == Some(lengths) && bits == HeaderBits(h) + rest
  {
    hide ParseCounts, CountsBits, ParseItems, RunItems, ItemsBits;
    ParseCountsWrites(bits);
    var (hlit, hdist, given, r1) := ParseCounts(bits).value;
    var code := CodeLengthCode(given);
    ParseItemsWrites(code, [], hlit + 257 + (hdist + 1), r1);
    var (items, lengths, rest) := ParseItems(code, [], hlit + 257 + (hdist + 1), r1).value;
    Assoc(CountsBits(hlit, hdist, given), ItemsBits(code, items), rest);
  }

  datatype Block =
    | Stored(pad: Bits, data: seq<byte>)
    | Fixed(tokens: seq<Token>)
    | Dynamic(header: Header, tokens: seq<Token>)

  predicate BlockInRange(b: Block) {
    b.Stored? || TokensInRange(b.tokens)
  }

  /** The codes of section 3.2.6. */
  function FixedLiterals(): (lengths: seq<nat>)
    ensures |lengths| == LIT_CODES
    ensures forall i :: 0 <= i < LIT_CODES ==>
      lengths[i] == if i < 144 then 8 else if i < 256 then 9 else if i < 280 then 7 else 8
  {
    Repeat(8, 144) + Repeat(9, 112) + Repeat(7, 24) + Repeat(8, 8)
  }

  function FixedDistances(): seq<nat> {
    Repeat(5, DIST_CODES)
  }

  /**
   A block that `rest` bits follow. The padding of a stored block reaches a
   byte boundary, counted from the end of the input, which is one.
  */
  predicate BlockOk(b: Block, rest: nat) {
    match b
    case Stored(pad, data) => |pad| < 8 && |data| < 65536 && rest % 8 == 0
    case Fixed(tokens) => TokensOk(FixedLiterals(), FixedDistances(), tokens)
    case Dynamic(h, tokens) =>
      HeaderOk(h) && TokensOk(LiteralLengths(h), DistanceLengths(h), tokens)
  }

  function BlockType(b: Block): nat {
    match b
    case Stored(_, _) => 0
    case Fixed(_) => 1
    case Dynamic(_, _) => 2
  }

  function BlockBits(b: Block, rest: nat): Bits
    requires BlockOk(b, rest)
  {
    match b
    case Stored(pad, data) =>
      pad + (LowBits(|data|, 16) + (LowBits(65535 - |data|, 16) + ByteBits(data)))
    case Fixed(tokens) => TokensBits(FixedLiterals(), FixedDistances(), tokens)
    case Dynamic(h, tokens) =>
      HeaderBits(h) + TokensBits(LiteralLengths(h), DistanceLengths(h), tokens)
  }

  function BytesOf(bits: Bits, n: nat): (bytes: seq<byte>)
    requires 8 * n <= |bits|
    ensures |bytes| == n
  {
    if n == 0 then []
    else
      var v := Value(bits[..8]);
      [if v < 256 then v else 0] + BytesOf(bits[8..], n - 1)
  }

  ghost function ParseStored(bits: Bits): (r: Option<(Block, Bits)>)
    ensures r.Some? ==> r.value.0.Stored? && |r.value.1| < |bits|
  {
    var k := |bits| % 8;
    var (len, r1) :- ReadBits(bits[k..], 16);
    var (nlen, r2) :- ReadBits(r1, 16);
    if BitXor(len, 0xffff) != nlen || |r2| < 8 * len then None
    else Some((Stored(bits[..k], BytesOf(r2, len)), r2[8 * len..]))
  }

  ghost function ParseBody(btype: nat, bits: Bits): (r: Option<(Block, Bits)>)
    ensures r.Some? ==> BlockInRange(r.value.0) && |r.value.1| < |bits|
  {
    match btype
    case 0 => ParseStored(bits)
    case 1 =>
      var (tokens, rest) :- ParseTokens(FixedLiterals(), FixedDistances(), bits);
      Some((Fixed(tokens), rest))
    case 2 =>
      var (h, lengths, r1) :- ParseHeader(bits);
      var (tokens, rest) :- ParseTokens(lengths[..h.hlit + 257], lengths[h.hlit + 257..], r1);
      Some((Dynamic(h, tokens), rest))
    case _ => None
  }

  lemma {:induction false} BytesOfBits(data: seq<byte>, rest: Bits)
    ensures BytesOf(ByteBits(data) + rest, |data|) == data
  {
    hide LowBits, Value;
    if data != [] {
      var bits := ByteBits(data) + rest;
      assert bits == LowBits(data[0], 8) + (ByteBits(data[1..]) + rest);
      assert bits[..8] == LowBits(data[0], 8) && bits[8..] == ByteBits(data[1..]) + rest;
      Pow2Values();
      ValueOfLowBits(data[0], 8);
      BytesOfBits(data[1..], rest);
      assert [data[0]] + data[1..] == data;
    }
  }

  lemma {:induction false} BitsOfBytes(bits: Bits, n: nat)
    requires 8 * n <= |bits|
    ensures ByteBits(BytesOf(bits, n)) == bits[..8 * n]
  {
    hide LowBits, Value, Pow2;
    if n > 0 {
      var bytes := BytesOf(bits, n);
      LowBitsOfValue(bits[..8]);
      Pow2Values();
      BitsOfBytes(bits[8..], n - 1);
      assert bytes[1..] == BytesOf(bits[8..], n - 1);
      assert bits[..8 * n] == bits[..8] + bits[8..][..8 * (n - 1)];
    }
  }

  lemma Padding(pad: Bits, bits: Bits, bytes: nat)
    requires |pad| < 8 && |bits| == 8 * bytes
    ensures |pad + bits| % 8 == |pad| && (pad + bits)[..|pad|] == pad && (pad + bits)[|pad|..] == bits
  {
    ModEight(|pad|, bytes);
  }

  lemma ModEight(k: nat, m: nat)
    requires k < 8
    ensures (k + 8 * m) % 8 == k
  {
  }

  lemma ParseStoredBits(pad: Bits, data: seq<byte>, rest: Bits)
    requires BlockOk(Stored(pad, data), |rest|)
    ensures ParseStored(BlockBits(Stored(pad, data), |rest|) + rest) == Some((Stored(pad, data), rest))
  {
    hide LowBits, Value, ByteBits, BytesOf, BitXor;
    var f1, f2, f3 := LowBits(|data|, 16), LowBits(65535 - |data|, 16), ByteBits(data);
    var bits := pad + (f1 + (f2 + (f3 + rest)));
    Assoc(f2, f3, rest);
    Assoc(f1, f2 + f3, rest);
    Assoc(pad, f1 + (f2 + f3), rest);
    Padding(pad, f1 + (f2 + (f3 + rest)), 4 + |data| + |rest| / 8);
    Pow2Values();
    ReadField(|data|, 16, f2 + (f3 + rest));
    ReadField(65535 - |data|, 16, f3 + rest);
    XorOnes(|data|, 16);
    BytesOfBits(data, rest);
    assert (f3 + rest)[8 * |data|..] == rest;
  }

  lemma ParseStoredWrites(bits: Bits)
    requires ParseStored(bits).Some?
    ensures var (b, rest) := ParseStored(bits).value;
      b.Stored? && BlockOk(b, |rest|) && bits == BlockBits(b, |rest|) + rest
  {
    hide LowBits, Value, ByteBits, BytesOf, BlockBits, BlockOk, Pow2;
    var k := |bits| % 8;
    ReadBitsWrites(bits[k..], 16);
    var (len, r1) := ReadBits(bits[k..], 16).value;
    ReadBitsWrites(r1, 16);
    var (nlen, r2) := ReadBits(r1, 16).value;
    Pow2Values();
    XorOnes(len, 16);
    BitsOfBytes(r2, len);
    var data := BytesOf(r2, len);
    StoredParts(bits, k, len, data, r2[8 * len..], r1, r2);
  }

  lemma StoredParts(bits: Bits, k: nat, len: nat, data: seq<byte>, rest: Bits, r1: Bits, r2: Bits)
    requires k == |bits| % 8 && len == |data| < 65536
    requires bits[k..] == LowBits(len, 16) + r1
    requires r1 == LowBits(65535 - len, 16) + r2
    requires |r2| >= 8 * len && ByteBits(data) == r2[..8 * len] && rest == r2[8 * len..]
    ensures BlockOk(Stored(bits[..k], data), |rest|)
    ensures bits == BlockBits(Stored(bits[..k], data), |rest|) + rest
  {
    hide LowBits, ByteBits;
    var f1, f2, f3 := LowBits(len, 16), LowBits(65535 - len, 16), ByteBits(data);
    assert |bits| == k + 8 * (4 + len) + |rest|;
    assert bits == bits[..k] + bits[k..];
    assert r2 == f3 + rest;
    Assoc(f2, f3, rest);
    Assoc(f1, f2 + f3, rest);
    Assoc(bits[..k], f1 + (f2 + f3), rest);
  }

  lemma ParseBodyBits(b: Block, rest: Bits)
    requires BlockOk(b, |rest|)
    ensures ParseBody(BlockType(b), BlockBits(b, |rest|) + rest) == Some((b, rest))
  {
    hide ParseStored, ParseTokens, ParseHeader, TokensBits, HeaderBits, TokensOk, FixedLiterals, FixedDistances;
    match b
    case Stored(pad, data) => ParseStoredBits(pad, data, rest);
    case Fixed(tokens) => ParseTokensBits(FixedLiterals(), FixedDistances(), tokens, rest);
    case Dynamic(h, tokens) =>
      var lit, dist := LiteralLengths(h), DistanceLengths(h);
      var w := TokensBits(lit, dist, tokens) + rest;
      Assoc(HeaderBits(h), TokensBits(lit, dist, tokens), rest);
      ParseHeaderBits(h, w);
      ParseTokensBits(lit, dist, tokens, rest);
  }

  lemma ParseBodyWrites(btype: nat, bits: Bits)
    requires ParseBody(btype, bits).Some?
    ensures var (b, rest) := ParseBody(btype, bits).value;
      BlockOk(b, |rest|) && BlockType(b) == btype && bits == BlockBits(b, |rest|) + rest
  {
    hide ParseStored, ParseTokens, ParseHeader, TokensBits, HeaderBits, TokensOk, FixedLiterals, FixedDistances;
    match btype
    case 0 => ParseStoredWrites(bits);
    case 1 => ParseTokensWrites(FixedLiterals(), FixedDistances(), bits);
    case 2 =>
      ParseHeaderWrites(bits);
      var (h, lengths, r1) := ParseHeader(bits).value;
      var lit, dist := LiteralLengths(h), DistanceLengths(h);
      ParseTokensWrites(lit, dist, r1);
      var (tokens, rest) := ParseTokens(lit, dist, r1).value;
      Assoc(HeaderBits(h), TokensBits(lit, dist, tokens), rest);
    case _ =>
  }

  // ---- streams ----

  predicate BlocksInRange(blocks: seq<Block>) {
    forall i :: 0 <= i < |blocks| ==> BlockInRange(blocks[i])
  }

  /** A block with its header of section 3.2.3, and what follows it. */
  function FramedBits(final: bool, b: Block, rest: Bits): (bits: Bits)
    requires BlockOk(b, |rest|)
    ensures |bits| > |rest|
  {
    [final] + (LowBits(BlockType(b), 2) + (BlockBits(b, |rest|) + rest))
  }

  ghost function ParseFramed(bits: Bits): (r: Option<(bool, Block, Bits)>)
    ensures r.Some? ==> BlockInRange(r.value.1) && |r.value.2| < |bits|
  {
    var (last, r1) :- ReadBits(bits, 1);
    var (btype, r2) :- ReadBits(r1, 2);
    var (b, rest) :- ParseBody(btype, r2);
    Some((last != 0, b, rest))
  }

  /** The final-block bit, as a field. */
  lemma FinalBit(final: bool)
    ensures LowBits(if final then 1 else 0, 1) == [final]
  {
    assert LowBits(if final then 1 else 0, 1) == [final] + LowBits(0, 0);
  }

  lemma ParseFramedBits(final: bool, b: Block, rest: Bits)
    requires BlockOk(b, |rest|)
    ensures ParseFramed(FramedBits(final, b, rest)) == Some((final, b, rest))
  {
    var w2 := BlockBits(b, |rest|) + rest;
    var w1 := LowBits(BlockType(b), 2) + w2;
    FinalBit(final);
    Pow2Values();
    ReadField(if final then 1 else 0, 1, w1);
    ReadField(BlockType(b), 2, w2);
    ParseBodyBits(b, rest);
  }

  lemma ParseFramedWrites(bits: Bits)
    requires ParseFramed(bits).Some?
    ensures var (final, b, rest) := ParseFramed(bits).value;
      BlockOk(b, |rest|) && bits == FramedBits(final, b, rest)
  {
    ReadBitsWrites(bits, 1);
    var (last, r1) := ReadBits(bits, 1).value;
    ReadBitsWrites(r1, 2);
    var (btype, r2) := ReadBits(r1, 2).value;
    ParseBodyWrites(btype, r2);
    var (b, rest) := ParseBody(btype, r2).value;
    FramedParts(bits, last, r1, btype, r2, b, rest);
  }

  lemma FramedParts(bits: Bits, last: nat, r1: Bits, btype: nat, r2: Bits, b: Block, rest: Bits)
    requires last < Pow2(1) && bits == LowBits(last, 1) + r1 && r1 == LowBits(btype, 2) + r2
    requires BlockOk(b, |rest|) && BlockType(b) == btype && r2 == BlockBits(b, |rest|) + rest
    ensures bits == FramedBits(last != 0, b, rest)
  {
    Pow2Values();
    FinalBit(last != 0);
  }

  /** A stream of blocks and the bits after it; only the last block is marked final. */
  predicate StreamOk(blocks: seq<Block>, tail: Bits)
    decreases |blocks|, 1
  {
    && blocks != []
    && (|blocks| > 1 ==> StreamOk(blocks[1..], tail))
    && BlockOk(blocks[0], |AfterFirst(blocks, tail)|)
  }

  function AfterFirst(blocks: seq<Block>, tail: Bits): Bits
    requires blocks != [] && (|blocks| > 1 ==> StreamOk(blocks[1..], tail))
    decreases |blocks|, 0
  {
    if |blocks| == 1 then tail else StreamBits(blocks[1..], tail)
  }

  function StreamBits(blocks: seq<Block>, tail: Bits): Bits
    requires StreamOk(blocks, tail)
    decreases |blocks|, 2
  {
    FramedBits(|blocks| == 1, blocks[0], AfterFirst(blocks, tail))
  }

  ghost function ParseStream(bits: Bits): (r: Option<(seq<Block>, Bits)>)
    ensures r.Some? ==> BlocksInRange(r.value.0)
    decreases |bits|
  {
    var (final, b, rest) :- ParseFramed(bits);
    if final then Some(([b], rest))
    else
      var (blocks, tail) :- ParseStream(rest);
      Some(([b] + blocks, tail))
  }

  /** Every valid stream is read back as the blocks that wrote it. */
  lemma {:induction false} ParseStreamBits(blocks: seq<Block>, tail: Bits)
    requires StreamOk(blocks, tail)
    ensures ParseStream(StreamBits(blocks, tail)) == Some((blocks, tail))
    decreases |blocks|
  {
    hide FramedBits, ParseFramed, BlockOk;
    ParseFramedBits(|blocks| == 1, blocks[0], AfterFirst(blocks, tail));
    if |blocks| > 1 {
      ParseStreamBits(blocks[1..], tail);
      assert [blocks[0]] + blocks[1..] == blocks;
    } else {
      assert [blocks[0]] == blocks;
    }
  }

  /** Whatever is read is a valid stream, written by exactly those bits. */
  lemma {:induction false} ParseStreamWrites(bits: Bits)
    requires ParseStream(bits).Some?
    ensures var (blocks, tail) := ParseStream(bits).value;
      StreamOk(blocks, tail) && bits == StreamBits(blocks, tail)
    decreases |bits|
  {
    hide FramedBits, ParseFramed, BlockOk;
    ParseFramedWrites(bits);
    var (final, b, rest) := ParseFramed(bits).value;
    if !final {
      ParseStreamWrites(rest);
      var (blocks, tail) := ParseStream(rest).value;
      assert ([b] + blocks)[1..] == blocks;
    }
  }

  // ---- meaning ----

  /** A run copied from `distance` back, which may reach into itself. */
  function CopyRun(out: seq<byte>, distance: nat, length: nat): (r: seq<byte>)
    requires 0 < distance <= |out|
    ensures |r| == |out| + length
    decreases length
  {
    if length == 0 then out else CopyRun(out + [out[|out| - distance]], distance, length - 1)
  }

  /** The run is the extension whose every byte is the one `distance` before it (section 3.2.3). */
  lemma {:induction false} CopyRunRepeats(out: seq<byte>, distance: nat, length: nat)
    requires 0 < distance <= |out|
    ensures var r := CopyRun(out, distance, length);
      r[..|out|] == out && forall i :: |out| <= i < |r| ==> r[i] == r[i - distance]
    decreases length
  {
    if length > 0 {
      var out' := out + [out[|out| - distance]];
      var r := CopyRun(out, distance, length);
      CopyRunRepeats(out', distance, length - 1);
      assert r == CopyRun(out', distance, length - 1);
      assert r[..|out'|] == out';
      assert r[..|out|] == r[..|out'|][..|out|] == out;
      assert r[|out|] == out'[|out|] && r[|out| - distance] == out'[|out| - distance];
    }
  }

  function RunToken(out: seq<byte>, t: Token): (r: Option<seq<byte>>)
    requires TokenInRange(t)
    ensures r.Some? ==> |out| <= |r.value|
  {
    match t
    case Literal(b) => Some(out + [b])
    case Copy(lsym, lextra, dsym, dextra) =>
      var distance := DistanceBase()[dsym] + dextra;
      if distance > |out| then None
      else Some(CopyRun(out, distance, LengthBase()[lsym] + lextra))
  }

  /** What the tokens append; None if one reaches back past the start of the output. */
  function RunTokens(out: seq<byte>, tokens: seq<Token>): (r: Option<seq<byte>>)
    requires TokensInRange(tokens)
    ensures r.Some? ==> |out| <= |r.value|
    decreases |tokens|
  {
    if tokens == [] then Some(out)
    else
      var next :- RunToken(out, tokens[0]);
      RunTokens(next, tokens[1..])
  }

  function RunBlock(out: seq<byte>, b: Block): (r: Option<seq<byte>>)
    requires BlockInRange(b)
    ensures r.Some? ==> |out| <= |r.value|
  {
    if b.Stored? then Some(out + b.data) else RunTokens(out, b.tokens)
  }

  /** The bytes a sequence of blocks decompresses to. */
  function Run(out: seq<byte>, blocks: seq<Block>): (r: Option<seq<byte>>)
    requires BlocksInRange(blocks)
    ensures r.Some? ==> |out| <= |r.value|
    decreases |blocks|
  {
    if blocks == [] then Some(out)
    else
      var next :- RunBlock(out, blocks[0]);
      Run(next, blocks[1..])
  }

  lemma {:induction false} RunTokensAppend(out: seq<byte>, a: seq<Token>, b: seq<Token>)
    requires TokensInRange(a) && TokensInRange(b)
    ensures TokensInRange(a + b)
    ensures RunTokens(out, a + b)
            == if RunTokens(out, a) == None then None else RunTokens(RunTokens(out, a).value, b)
    decreases |a|
  {
    if a == [] {
      assert a + b == b;
    } else {
      assert (a + b)[1..] == a[1..] + b;
      var next := RunToken(out, a[0]);
      if next.Some? {
        RunTokensAppend(next.value, a[1..], b);
      }
    }
  }

  lemma {:induction false} RunAppend(out: seq<byte>, a: seq<Block>, b: seq<Block>)
    requires BlocksInRange(a) && BlocksInRange(b)
    ensures BlocksInRange(a + b)
    ensures Run(out, a + b) == if Run(out, a) == None then None else Run(Run(out, a).value, b)
    decreases |a|
  {
    if a == [] {
      assert a + b == b;
    } else {
      assert (a + b)[1..] == a[1..] + b;
      var next := RunBlock(out, a[0]);
      if next.Some? {
        RunAppend(next.value, a[1..], b);
      }
    }
  }
}
