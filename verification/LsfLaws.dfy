/**
 The layout of Larian's binary resources, told from a file's raw bytes apart
 from the functions that read it: a file is read as a document exactly if
 the document's sections lie where the header's words put them and its
 strings are those of the attribute records.
*/
module LsfLaws {
  import opened BitStrings
  import opened Lsf
  import opened Numbers
  import opened References
  import opened Spelling
  import opened Wrappers
  import Inflate

  // ---- the strings ----

  /** An attribute's record: sixteen bytes where values are told by offset, else twelve. */
  function Width(explicit: bool): nat {
    if explicit then 16 else 12
  }

  function Length(a: seq<byte>, explicit: bool, k: nat): nat
    requires Width(explicit) * (k + 1) <= |a|
  {
    Four(a, Width(explicit) * k + 4) / 64
  }

  function LengthsBefore(a: seq<byte>, k: nat): nat
    requires 12 * k <= |a|
  {
    if k == 0 then 0 else LengthsBefore(a, k - 1) + Length(a, false, k - 1)
  }

  /** Where a record's value begins: as it says, or after all values before it, in 32 bits. */
  function Begin(a: seq<byte>, explicit: bool, k: nat): nat
    requires Width(explicit) * (k + 1) <= |a|
  {
    if explicit then Four(a, 16 * k + 12) else LengthsBefore(a, k) % 0x1_0000_0000
  }

  /** Whether a record's value is a string: of one of six types, not empty, and within the values. */
  predicate Listed(a: seq<byte>, explicit: bool, size: nat, k: nat)
    requires Width(explicit) * (k + 1) <= |a|
  {
    && Four(a, Width(explicit) * k + 4) % 64 in {20, 21, 22, 23, 29, 30}
    && Length(a, explicit, k) > 1 && Begin(a, explicit, k) + Length(a, explicit, k) <= size
  }

  /** The string of a record: without its last byte, and with the record's name, if there is one. */
  function String(a: seq<byte>, explicit: bool, names: seq<seq<Text>>, k: nat): Token
    requires Width(explicit) * (k + 1) <= |a| && Length(a, explicit, k) > 1
  {
    var link, chain := Two(a, Width(explicit) * k), Two(a, Width(explicit) * k + 2);
    Token(Begin(a, explicit, k), Length(a, explicit, k) - 1,
          if chain < |names| && link < |names[chain]| then names[chain][link] else [])
  }

  /** How many of the first `k` records are strings. */
  function Rank(a: seq<byte>, explicit: bool, size: nat, k: nat): nat
    requires Width(explicit) * k <= |a|
  {
    if k == 0 then 0
    else Rank(a, explicit, size, k - 1) + (if Listed(a, explicit, size, k - 1) then 1 else 0)
  }

  /** Of the first `n` records every one that is a string, each once and in order. */
  predicate StringsOf(strings: seq<Token>, a: seq<byte>, explicit: bool, size: nat, names: seq<seq<Text>>, n: nat)
    requires Width(explicit) * n <= |a|
  {
    && |strings| == Rank(a, explicit, size, n)
    && forall k: nat :: k < n && Listed(a, explicit, size, k) ==>
         && Rank(a, explicit, size, k) < |strings|
         && strings[Rank(a, explicit, size, k)] == String(a, explicit, names, k)
  }

  predicate TableOf(strings: seq<Token>, a: seq<byte>, explicit: bool, size: nat, names: seq<seq<Text>>) {
    StringsOf(strings, a, explicit, size, names, |a| / Width(explicit))
  }

  lemma NameLaw(a: seq<byte>, at: nat, names: seq<seq<Text>>)
    requires at + 4 <= |a|
    ensures var link, chain := Two(a, at), Two(a, at + 2);
      NameOf(names, Four(a, at)) == if chain < |names| && link < |names[chain]| then names[chain][link] else []
  {
    assert Four(a, at) / 0x10000 == Two(a, at + 2) && Four(a, at) % 0x10000 == Two(a, at);
  }

  lemma RecordLaw(a: seq<byte>, explicit: bool, size: nat, names: seq<seq<Text>>, k: nat)
    requires Width(explicit) * (k + 1) <= |a|
    ensures StringAt(a, Width(explicit) * k, size, names, Begin(a, explicit, k))
            == if Listed(a, explicit, size, k) then [String(a, explicit, names, k)] else []
  {
    hide U32, NameOf, Four, Begin;
    var at := Width(explicit) * k;
    FourIs(a, at);
    FourIs(a, at + 4);
    NameLaw(a, at, names);
  }

  /** The offset as it is carried from record to record. */
  function Carried(a: seq<byte>, explicit: bool, k: nat): nat
    requires Width(explicit) * k <= |a|
  {
    if explicit then (if k == 0 then 0 else Begin(a, explicit, k - 1)) else LengthsBefore(a, k) % 0x1_0000_0000
  }

  lemma CarriedLaw(a: seq<byte>, explicit: bool, k: nat)
    requires Width(explicit) * (k + 1) <= |a|
    ensures OffsetAt(a, Width(explicit) * k, explicit, Carried(a, explicit, k)) == Begin(a, explicit, k)
    ensures OffsetAfter(a, Width(explicit) * k, explicit, Carried(a, explicit, k)) == Carried(a, explicit, k + 1)
  {
    hide U32, Four;
    if explicit {
      FourIs(a, 16 * k + 12);
    } else {
      FourIs(a, 12 * k + 4);
      ModuloAdds(LengthsBefore(a, k), Length(a, false, k));
    }
  }

  lemma StringsGrow(strings: seq<Token>, a: seq<byte>, explicit: bool, size: nat, names: seq<seq<Text>>, k: nat)
    requires Width(explicit) * (k + 1) <= |a| && StringsOf(strings, a, explicit, size, names, k)
    ensures StringsOf(strings + StringAt(a, Width(explicit) * k, size, names, Begin(a, explicit, k)),
                      a, explicit, size, names, k + 1)
  {
    hide StringAt, Four, Two, Begin, Width;
    RecordLaw(a, explicit, size, names, k);
  }

  lemma StringsStep(a: seq<byte>, explicit: bool, size: nat, names: seq<seq<Text>>, k: nat)
    requires Width(explicit) * k <= |a|
    ensures var at, offset := Width(explicit) * k, Carried(a, explicit, k);
      StringsFrom(a, at, explicit, size, names, offset)
      == if Width(explicit) * (k + 1) > |a| then []
         else StringAt(a, at, size, names, Begin(a, explicit, k))
              + StringsFrom(a, Width(explicit) * (k + 1), explicit, size, names, Carried(a, explicit, k + 1))
  {
    hide StringAt, Four, Begin, Carried, OffsetAt, OffsetAfter;
    if Width(explicit) * (k + 1) <= |a| {
      CarriedLaw(a, explicit, k);
      assert Width(explicit) * (k + 1) == Width(explicit) * k + Width(explicit);
    }
  }

  lemma RecordsBefore(size: nat, w: nat, k: nat)
    requires w > 0 && w * (k + 1) <= size
    ensures k < size / w
  {
    DivMod(size, w);
    ProductOrder(k, size / w, w);
    assert w * (k + 1) == w * k + w;
  }

  lemma LastRecord(size: nat, w: nat, k: nat)
    requires w > 0 && w * k <= size < w * (k + 1)
    ensures size / w == k
  {
    DivMod(size, w);
    ProductOrder(size / w, k + 1, w);
    ProductOrder(k, size / w + 1, w);
  }

  /** The strings from record `k` on, after those before it. */
  lemma {:induction false} TableFrom(a: seq<byte>, explicit: bool, size: nat, names: seq<seq<Text>>, k: nat,
                                     before: seq<Token>)
    requires Width(explicit) * k <= |a| && StringsOf(before, a, explicit, size, names, k)
    ensures TableOf(before + StringsFrom(a, Width(explicit) * k, explicit, size, names, Carried(a, explicit, k)),
                    a, explicit, size, names)
    decreases |a| - Width(explicit) * k
  {
    hide StringsOf, StringsFrom, Carried, StringAt, Begin;
    var rest := StringsFrom(a, Width(explicit) * k, explicit, size, names, Carried(a, explicit, k));
    StringsStep(a, explicit, size, names, k);
    if Width(explicit) * (k + 1) <= |a| {
      var one := StringAt(a, Width(explicit) * k, size, names, Begin(a, explicit, k));
      StringsGrow(before, a, explicit, size, names, k);
      TableFrom(a, explicit, size, names, k + 1, before + one);
      var more := StringsFrom(a, Width(explicit) * (k + 1), explicit, size, names, Carried(a, explicit, k + 1));
      assert before + one + more == before + rest;
    } else {
      LastRecord(|a|, Width(explicit), k);
      assert before + [] == before;
    }
  }

  /** The strings of the attributes are those of the records that are strings, each once and in order. */
  lemma StringsLaw(a: seq<byte>, explicit: bool, size: nat, names: seq<seq<Text>>)
    ensures TableOf(StringsFrom(a, 0, explicit, size, names, 0), a, explicit, size, names)
  {
    hide TableOf, StringsFrom;
    TableFrom(a, explicit, size, names, 0, []);
    assert [] + StringsFrom(a, 0, explicit, size, names, 0) == StringsFrom(a, 0, explicit, size, names, 0);
  }

  lemma {:induction false} RankFinds(a: seq<byte>, explicit: bool, size: nat, n: nat, r: nat) returns (k: nat)
    requires Width(explicit) * n <= |a| && r < Rank(a, explicit, size, n)
    ensures k < n && Width(explicit) * (k + 1) <= |a| && Listed(a, explicit, size, k)
    ensures Rank(a, explicit, size, k) == r
  {
    hide Listed;
    if Rank(a, explicit, size, n - 1) == r {
      k := n - 1;
    } else {
      k := RankFinds(a, explicit, size, n - 1, r);
    }
  }

  /** A token is one of the strings if and only if some record is a string and gives that token. */
  lemma StringsIff(a: seq<byte>, explicit: bool, size: nat, names: seq<seq<Text>>, t: Token)
    ensures t in StringsFrom(a, 0, explicit, size, names, 0) <==>
      exists k: nat :: Width(explicit) * (k + 1) <= |a| && Listed(a, explicit, size, k)
                       && t == String(a, explicit, names, k)
  {
    hide StringsFrom, String, Four, Begin;
    StringsLaw(a, explicit, size, names);
    var strings := StringsFrom(a, 0, explicit, size, names, 0);
    if t in strings {
      var r :| 0 <= r < |strings| && strings[r] == t;
      var k := RankFinds(a, explicit, size, |a| / Width(explicit), r);
      assert t == String(a, explicit, names, k);
    }
    forall k: nat | Width(explicit) * (k + 1) <= |a| && Listed(a, explicit, size, k)
      ensures String(a, explicit, names, k) in strings
    {
      RecordsBefore(|a|, Width(explicit), k);
      assert strings[Rank(a, explicit, size, k)] == String(a, explicit, names, k);
    }
  }

  // ---- the names ----

  function Bytes2(n: nat): (r: seq<byte>)
    ensures |r| == 2
  {
    [n % 256, n / 256 % 256]
  }

  function ChainBytes(chain: seq<Text>): seq<byte> {
    if chain == [] then [] else Bytes2(|chain[0]|) + chain[0] + ChainBytes(chain[1..])
  }

  function ChainsBytes(names: seq<seq<Text>>): seq<byte> {
    if names == [] then [] else Bytes2(|names[0]|) + ChainBytes(names[0]) + ChainsBytes(names[1..])
  }

  predicate ChainFits(chain: seq<Text>) {
    forall i :: 0 <= i < |chain| ==> |chain[i]| < 0x1_0000
  }

  predicate ChainsFit(names: seq<seq<Text>>) {
    forall i :: 0 <= i < |names| ==> |names[i]| < 0x1_0000 && ChainFits(names[i])
  }

  /** Names as a section holds them: counts of chains in four bytes, all other counts and lengths in two. */
  predicate HoldsNames(buf: seq<byte>, names: seq<seq<Text>>) {
    |buf| >= 4 && Four(buf, 0) == |names| && ChainsFit(names) && ChainsBytes(names) <= buf[4..]
  }

  lemma Bytes2Law(n: nat, buf: seq<byte>, at: nat)
    requires at + 2 <= |buf|
    ensures Two(buf, at) == n <==> n < 0x1_0000 && Bytes2(n) <= buf[at..]
  {
    var s := buf[at..];
    assert s[0] == buf[at] && s[1] == buf[at + 1];
    if Two(buf, at) == n {
      assert Bytes2(n)[0] == s[0] && Bytes2(n)[1] == s[1];
      assert s[..2] == Bytes2(n);
    }
  }

  lemma PrefixOfSum(a: seq<byte>, b: seq<byte>, s: seq<byte>)
    ensures a + b <= s <==> a <= s && b <= s[|a|..]
  {
    if a <= s && b <= s[|a|..] {
      assert s == a + (b + s[|a|..][|b|..]);
    }
    if a + b <= s {
      assert s == a + b + s[|a| + |b|..];
    }
  }

  lemma PartAt(a: seq<byte>, buf: seq<byte>, at: nat)
    requires at <= |buf|
    ensures a <= buf[at..] <==> at + |a| <= |buf| && a == buf[at..at + |a|]
    ensures at + |a| <= |buf| ==> buf[at..][|a|..] == buf[at + |a|..]
  {
  }

  /** A name in its place: its length in two bytes, itself, and what follows. */
  lemma NameHeld(buf: seq<byte>, at: nat, name: Text, tail: seq<byte>)
    requires at + 2 <= |buf|
    ensures |name| < 0x1_0000 && Bytes2(|name|) + name + tail <= buf[at..] <==>
      && Two(buf, at) == |name| && at + 2 + |name| <= |buf| && name == buf[at + 2..at + 2 + |name|]
      && tail <= buf[at + 2 + |name|..]
  {
    hide Two, Bytes2;
    var n := |name|;
    Bytes2Law(n, buf, at);
    PartAt(Bytes2(n), buf, at);
    PartAt(name, buf, at + 2);
    PrefixOfSum(Bytes2(n), name, buf[at..]);
    PrefixOfSum(Bytes2(n) + name, tail, buf[at..]);
    PartAt(Bytes2(n) + name, buf, at);
  }

  lemma {:induction false} ChainLaw(buf: seq<byte>, at: nat, count: nat, chain: seq<Text>, end: nat)
    requires at <= |buf|
    ensures ReadChain(buf, at, count) == Some((chain, end)) <==>
      |chain| == count && ChainFits(chain) && ChainBytes(chain) <= buf[at..] && end == at + |ChainBytes(chain)|
    decreases count
  {
    hide Two, U16;
    if count > 0 && chain != [] && at + 2 <= |buf| {
      hide ReadChain, ChainFits;
      var name, rest := chain[0], chain[1..];
      TwoIs(buf, at);
      NameHeld(buf, at, name, ChainBytes(rest));
      ChainParts(buf, at, count, chain, end);
      FitsSplits(chain);
      if at + 2 + Two(buf, at) <= |buf| {
        ChainLaw(buf, at + 2 + Two(buf, at), count - 1, rest, end);
      }
    }
  }

  lemma FitsSplits(chain: seq<Text>)
    requires chain != []
    ensures ChainFits(chain) <==> |chain[0]| < 0x1_0000 && ChainFits(chain[1..])
  {
    assert chain == [chain[0]] + chain[1..];
  }

  lemma ChainParts(buf: seq<byte>, at: nat, count: nat, chain: seq<Text>, end: nat)
    requires count > 0 && chain != [] && at + 2 <= |buf|
    ensures var next := at + 2 + U16(buf, at);
      ReadChain(buf, at, count) == Some((chain, end)) <==>
        next <= |buf| && chain[0] == buf[at + 2..next] && ReadChain(buf, next, count - 1) == Some((chain[1..], end))
  {
    hide U16;
    var next := at + 2 + U16(buf, at);
    assert chain == [chain[0]] + chain[1..];
    if next <= |buf| && ReadChain(buf, next, count - 1).Some? {
      var c := [buf[at + 2..next]] + ReadChain(buf, next, count - 1).value.0;
      assert c[0] == buf[at + 2..next] && c[1..] == ReadChain(buf, next, count - 1).value.0;
    }
  }

  lemma {:induction false} ChainsLaw(buf: seq<byte>, at: nat, count: nat, names: seq<seq<Text>>)
    requires at <= |buf|
    ensures ReadChains(buf, at, count) == Some(names) <==>
      |names| == count && ChainsFit(names) && ChainsBytes(names) <= buf[at..]
    decreases count
  {
    hide Two, U16, ReadChain, ChainBytes;
    if count > 0 && names != [] && at + 2 <= |buf| {
      hide ReadChains, ChainFits, ChainsFit;
      var chain, rest := names[0], names[1..];
      var body := ChainBytes(chain);
      TwoIs(buf, at);
      Bytes2Law(|chain|, buf, at);
      ChainHeld(buf, at, |chain|, body, ChainsBytes(rest));
      ChainsParts(buf, at, count, names);
      ChainsFitSplits(names);
      ChainLaw(buf, at + 2, Two(buf, at), chain, at + 2 + |body|);
      if at + 2 + |body| <= |buf| {
        ChainsLaw(buf, at + 2 + |body|, count - 1, rest);
      }
    }
  }

  lemma ChainHeld(buf: seq<byte>, at: nat, n: nat, body: seq<byte>, tail: seq<byte>)
    requires at + 2 <= |buf|
    ensures Bytes2(n) + body + tail <= buf[at..] <==>
      && Bytes2(n) <= buf[at..] && body <= buf[at + 2..]
      && at + 2 + |body| <= |buf| && tail <= buf[at + 2 + |body|..]
  {
    hide Bytes2;
    PartAt(Bytes2(n), buf, at);
    PartAt(body, buf, at + 2);
    PrefixOfSum(Bytes2(n), body, buf[at..]);
    PrefixOfSum(Bytes2(n) + body, tail, buf[at..]);
    PartAt(Bytes2(n) + body, buf, at);
  }

  lemma ChainsFitSplits(names: seq<seq<Text>>)
    requires names != []
    ensures ChainsFit(names) <==> |names[0]| < 0x1_0000 && ChainFits(names[0]) && ChainsFit(names[1..])
  {
    hide ChainFits;
    assert names == [names[0]] + names[1..];
  }

  lemma ChainsParts(buf: seq<byte>, at: nat, count: nat, names: seq<seq<Text>>)
    requires count > 0 && names != [] && at + 2 <= |buf|
    ensures var end := at + 2 + |ChainBytes(names[0])|;
      ReadChains(buf, at, count) == Some(names) <==>
        && ReadChain(buf, at + 2, U16(buf, at)) == Some((names[0], end)) && end <= |buf|
        && ReadChains(buf, end, count - 1) == Some(names[1..])
  {
    hide U16, ReadChain, ChainBytes;
    assert names == [names[0]] + names[1..];
    var chain := ReadChain(buf, at + 2, U16(buf, at));
    if chain.Some? {
      var (c, end) := chain.value;
      ChainLaw(buf, at + 2, U16(buf, at), c, end);
      PartAt(ChainBytes(c), buf, at + 2);
      var rest := ReadChains(buf, end, count - 1);
      if rest.Some? {
        assert ([c] + rest.value)[0] == c && ([c] + rest.value)[1..] == rest.value;
      }
    }
  }

  /** A section is read as names if and only if it begins with them as they are laid out. */
  lemma NamesLaw(buf: seq<byte>, names: seq<seq<Text>>)
    ensures ReadNames(buf) == Some(names) <==> HoldsNames(buf, names)
  {
    hide ReadChains, ChainsFit, ChainsBytes, Four, U32;
    if |buf| >= 4 {
      FourIs(buf, 0);
      ChainsLaw(buf, 4, U32(buf, 0), names);
    }
  }

  // ---- sections ----

  /** How many bytes of the file a section takes: as it is, or as it is on disk. */
  function Span(size: nat, onDisk: nat, method': nat): nat {
    if size == 0 then 0 else if onDisk == 0 || method' == 0 then size else onDisk
  }

  /** A section's bytes from the part of the file it takes: itself, inflated by method 1, or decoded by 2 or 3. */
  ghost predicate Holds(codec: Codec, part: seq<byte>, size: nat, onDisk: nat, method': nat, frame: bool,
                        bytes: seq<byte>) {
    && size <= 0x1000_0000 && onDisk <= 0x1000_0000 && |bytes| == size
    && (size == 0 ==> onDisk == 0)
    && (size > 0 ==>
          if onDisk == 0 || method' == 0 then bytes == part
          else if method' == 1 then Inflate.Inflated(part, size) == Some(bytes)
          else method' in {2, 3} && codec(method', frame, part, size) == Some(bytes))
  }

  lemma SectionLaw(codec: Codec, data: seq<byte>, at: nat, version: nat, method': nat, s: Sizes, chunkable: bool,
                   bytes: seq<byte>, after: seq<byte>)
    requires at <= |data|
    ensures var end := at + Span(s.uncompressed, s.onDisk, method');
      Section(codec, data[at..], version, method', s, chunkable) == Some((bytes, after)) <==>
        && end <= |data| && after == data[end..]
        && Holds(codec, data[at..end], s.uncompressed, s.onDisk, method', chunkable && version >= 2, bytes)
  {
    hide Inflate.StreamMeaning, Inflate.Body, ByteBits;
    var end := at + Span(s.uncompressed, s.onDisk, method');
    if end <= |data| {
      assert data[at..][..end - at] == data[at..end] && data[at..][end - at..] == data[end..];
    }
  }

  /** A file's header words: five sizes from version 6 on, four before it, then the method and the format. */
  datatype Places = Places(end: nat, strings: nat, nodes: nat, attributes: nat, values: nat, keys: nat, flags: nat,
                           format: nat)

  function PlacesOf(version: nat): Places {
    var base := if version >= 5 then 16 else 12;
    if version >= 6 then
      Places(base + 48, base, base + 16, base + 24, base + 32, base + 8, base + 40, base + 44)
    else Places(base + 40, base, base + 8, base + 16, base + 24, base, base + 32, base + 36)
  }

  /** A section at `at`, with its two sizes at `sizes`, holds these bytes. */
  ghost predicate HeldAt(codec: Codec, data: seq<byte>, at: nat, sizes: nat, method': nat, frame: bool,
                         bytes: seq<byte>)
    requires sizes + 8 <= |data|
  {
    var end := at + Span(Four(data, sizes), Four(data, sizes + 4), method');
    end <= |data| && Holds(codec, data[at..end], Four(data, sizes), Four(data, sizes + 4), method', frame, bytes)
  }

  function After(data: seq<byte>, at: nat, sizes: nat, method': nat): nat
    requires sizes + 8 <= |data|
  {
    at + Span(Four(data, sizes), Four(data, sizes + 4), method')
  }

  /** The sections, one after the other behind the header: names, nodes, attributes, values, and any keys. */
  ghost predicate SectionsOf(codec: Codec, data: seq<byte>, p: Places, d: Document)
    requires p == PlacesOf(d.version) && p.end <= |data|
  {
    var m, framed := data[p.flags] % 16, d.version >= 2;
    var nodesAt := After(data, p.end, p.strings, m);
    var attributesAt := After(data, nodesAt, p.nodes, m);
    var valuesAt := After(data, attributesAt, p.attributes, m);
    && HeldAt(codec, data, p.end, p.strings, m, false, d.strings)
    && HeldAt(codec, data, nodesAt, p.nodes, m, framed, d.nodes)
    && HeldAt(codec, data, attributesAt, p.attributes, m, framed, d.attributes)
    && HeldAt(codec, data, valuesAt, p.values, m, framed, d.values)
    && d.hasKeys == (d.version >= 6 && Four(data, p.format) == 1)
    && if d.hasKeys then HeldAt(codec, data, After(data, valuesAt, p.values, m), p.keys, m, framed, d.keys)
       else d.keys == []
  }

  /** The document that a file is: its header, its sections, and the strings that its attributes tell of. */
  ghost predicate IsFile(codec: Codec, data: seq<byte>, d: Document) {
    && |data| >= 12 && data[0] == 0x4c && data[1] == 0x53 && data[2] == 0x4f && data[3] == 0x46
    && d.version == Four(data, 4) && 1 <= d.version <= 7 && d.metadataAt == (if d.version >= 5 then 16 else 12)
    && var p := PlacesOf(d.version);
    && p.end <= |data| && d.prefix == data[..p.end] && SectionsOf(codec, data, p, d)
    && exists names :: HoldsNames(d.strings, names)
         && TableOf(d.stringValues, d.attributes, d.version >= 3 && Four(data, p.format) == 1, |d.values|, names)
  }

  lemma OneSection(codec: Codec, data: seq<byte>, at: nat, version: nat, method': nat, sizes: nat, chunkable: bool,
                   bytes: seq<byte>)
    requires at <= |data| && sizes + 8 <= |data|
    ensures var r := Section(codec, data[at..], version, method', SizesAt(data, sizes), chunkable);
      && (r.Some? && r.value.0 == bytes <==>
            HeldAt(codec, data, at, sizes, method', chunkable && version >= 2, bytes))
      && (r.Some? ==>
            After(data, at, sizes, method') <= |data| && r.value.1 == data[After(data, at, sizes, method')..])
  {
    hide Section, Holds, Span, U32, Four;
    FourIs(data, sizes);
    FourIs(data, sizes + 4);
    var s := SizesAt(data, sizes);
    var r := Section(codec, data[at..], version, method', s, chunkable);
    if r.Some? {
      SectionLaw(codec, data, at, version, method', s, chunkable, r.value.0, r.value.1);
    }
    var end := After(data, at, sizes, method');
    if end <= |data| {
      SectionLaw(codec, data, at, version, method', s, chunkable, bytes, data[end..]);
    }
  }

  lemma HeaderIs(data: seq<byte>, version: nat)
    requires PlacesOf(version).end <= |data|
    ensures var p, h := PlacesOf(version), HeaderAt(data, MetadataAt(version), version);
      && h.strings == SizesAt(data, p.strings) && h.nodes == SizesAt(data, p.nodes)
      && h.attributes == SizesAt(data, p.attributes) && h.values == SizesAt(data, p.values)
      && (version >= 6 ==> h.keys == SizesAt(data, p.keys))
      && h.flags == data[p.flags] && h.format == Four(data, p.format)
      && MetadataAt(version) + MetadataSize(version) == p.end
  {
    hide U32, Four, SizesAt;
    FourIs(data, PlacesOf(version).format);
  }

  lemma {:induction false} TableUnique(s: seq<Token>, t: seq<Token>, a: seq<byte>, explicit: bool, size: nat,
                                       names: seq<seq<Text>>)
    requires TableOf(s, a, explicit, size, names) && TableOf(t, a, explicit, size, names)
    ensures s == t
  {
    hide Listed, String;
    forall r | 0 <= r < |s|
      ensures s[r] == t[r]
    {
      var k := RankFinds(a, explicit, size, |a| / Width(explicit), r);
    }
  }

  lemma StringsOfNames(d: Document, explicit: bool)
    ensures ReadNames(d.strings).Some?
            && d.stringValues == StringsFrom(d.attributes, 0, explicit, |d.values|, ReadNames(d.strings).value, 0) <==>
            exists names ::
              HoldsNames(d.strings, names) && TableOf(d.stringValues, d.attributes, explicit, |d.values|, names)
  {
    hide ReadNames, HoldsNames, TableOf, StringsFrom;
    if ReadNames(d.strings).Some? {
      var names := ReadNames(d.strings).value;
      NamesLaw(d.strings, names);
      StringsLaw(d.attributes, explicit, |d.values|, names);
    }
    forall names | HoldsNames(d.strings, names) && TableOf(d.stringValues, d.attributes, explicit, |d.values|, names)
      ensures ReadNames(d.strings) == Some(names)
      ensures d.stringValues == StringsFrom(d.attributes, 0, explicit, |d.values|, names, 0)
    {
      NamesLaw(d.strings, names);
      StringsLaw(d.attributes, explicit, |d.values|, names);
      TableUnique(d.stringValues, StringsFrom(d.attributes, 0, explicit, |d.values|, names, 0), d.attributes, explicit,
                  |d.values|, names);
    }
  }

  lemma SectionsLaw(codec: Codec, data: seq<byte>, d: Document)
    requires PlacesOf(d.version).end <= |data|
    ensures var p := PlacesOf(d.version);
      ReadSections(codec, data[p.end..], d.version, HeaderAt(data, MetadataAt(d.version), d.version))
      == Some(d.(prefix := [], metadataAt := 0)) <==>
        SectionsOf(codec, data, p, d) && ReadNames(d.strings).Some?
        && d.stringValues == StringsFrom(d.attributes, 0, d.version >= 3 && Four(data, p.format) == 1, |d.values|,
                                         ReadNames(d.strings).value, 0)
  {
    hide Section, HeldAt, After, SizesAt, Four, ReadNames, StringsFrom, HeaderAt, MetadataAt, MetadataSize;
    var p := PlacesOf(d.version);
    HeaderIs(data, d.version);
    var m := data[p.flags] % 16;
    OneSection(codec, data, p.end, d.version, m, p.strings, false, d.strings);
    var nodesAt := After(data, p.end, p.strings, m);
    if Section(codec, data[p.end..], d.version, m, SizesAt(data, p.strings), false).Some? {
      OneSection(codec, data, nodesAt, d.version, m, p.nodes, true, d.nodes);
      var attributesAt := After(data, nodesAt, p.nodes, m);
      if Section(codec, data[nodesAt..], d.version, m, SizesAt(data, p.nodes), true).Some? {
        OneSection(codec, data, attributesAt, d.version, m, p.attributes, true, d.attributes);
        var valuesAt := After(data, attributesAt, p.attributes, m);
        if Section(codec, data[attributesAt..], d.version, m, SizesAt(data, p.attributes), true).Some? {
          OneSection(codec, data, valuesAt, d.version, m, p.values, true, d.values);
          var keysAt := After(data, valuesAt, p.values, m);
          if Section(codec, data[valuesAt..], d.version, m, SizesAt(data, p.values), true).Some? && d.version >= 6 {
            OneSection(codec, data, keysAt, d.version, m, p.keys, true, d.keys);
          }
        }
      }
    }
  }

  lemma SectionsAlone(codec: Codec, rest: seq<byte>, version: nat, h: Header)
    ensures var r := ReadSections(codec, rest, version, h);
      r.Some? ==> r.value.prefix == [] && r.value.metadataAt == 0 && r.value.version == version
  {
    hide Section, ReadNames, StringsFrom;
  }

  /** A file is read as a document if and only if it is that document, and as none if and only if it is no document. */
  lemma ReadLaw(codec: Codec, data: seq<byte>, d: Document)
    ensures Read(codec, data) == Some(d) <==> IsFile(codec, data, d)
  {
    hide ReadSections, SectionsOf, HeaderAt, ReadNames, StringsFrom, HoldsNames, TableOf, U32, Four, Lit;
    if |data| >= 12 {
      FourIs(data, 4);
      MagicIs(data);
      var p := PlacesOf(U32(data, 4));
      if p.end <= |data| {
        SectionsAlone(codec, data[p.end..], U32(data, 4), HeaderAt(data, MetadataAt(U32(data, 4)), U32(data, 4)));
      }
      if p.end <= |data| && d.version == U32(data, 4) {
        SectionsLaw(codec, data, d);
        StringsOfNames(d, d.version >= 3 && Four(data, p.format) == 1);
      }
    }
  }

  lemma MagicIs(data: seq<byte>)
    requires |data| >= 4
    ensures Magic(data) <==> data[0] == 0x4c && data[1] == 0x53 && data[2] == 0x4f && data[3] == 0x46
  {
    var l := Lit("LSOF");
    assert l[0] == 0x4c && l[1] == 0x53 && l[2] == 0x4f && l[3] == 0x46;
    assert data[..4] == [data[0], data[1], data[2], data[3]];
    assert l == [l[0], l[1], l[2], l[3]];
  }

  // ---- what is written ----

  /** The two sizes of a section in a written header: its own, and none on disk. */
  predicate PlainSizes(w: seq<byte>, at: nat, size: nat) {
    at + 8 <= |w| && Four(w, at) == size && Four(w, at + 4) == 0
  }

  lemma PlainSizesLaw(w: seq<byte>, at: nat, values: seq<nat>, i: nat)
    requires WordsAt(w, at, values) && 2 * i + 1 < |values| && at + 8 * i + 8 <= |w| && values[2 * i + 1] == 0
    ensures PlainSizes(w, at + 8 * i, values[2 * i])
  {
    hide U32, Four;
    WordPair(w, at, values, i);
    FourIs(w, at + 8 * i);
    FourIs(w, at + 8 * i + 4);
  }

  /** A written document: its header but for the sizes and the flags, then its sections as they are. */
  lemma WrittenLaw(d: Document)
    requires DocumentOk(d)
    ensures var w, p := Written(d), PlacesOf(d.version);
      && |w| >= p.end == |d.prefix| && w[p.end..] == d.strings + d.nodes + d.attributes + d.values + d.keys
      && (forall i :: 0 <= i < p.end && !(d.metadataAt <= i <= p.flags) ==> w[i] == d.prefix[i])
      && w[p.flags] == 0
      && PlainSizes(w, p.strings, |d.strings|) && PlainSizes(w, p.nodes, |d.nodes|)
      && PlainSizes(w, p.attributes, |d.attributes|) && PlainSizes(w, p.values, |d.values|)
      && (d.version >= 6 ==> PlainSizes(w, p.keys, |d.keys|))
  {
    hide U32, Words, Strings, Magic, WordsAt, PlainSizes;
    var rest := d.strings + d.nodes + d.attributes + d.values + d.keys;
    assert Written(d) == Prefix(d) + rest;
    SizesWritten(d, rest);
    FlagsWritten(d, rest);
    var w, values := Written(d), SizeWords(d);
    PlainSizesLaw(w, d.metadataAt, values, 0);
    PlainSizesLaw(w, d.metadataAt, values, 1);
    PlainSizesLaw(w, d.metadataAt, values, 2);
    PlainSizesLaw(w, d.metadataAt, values, 3);
    if d.version >= 6 {
      PlainSizesLaw(w, d.metadataAt, values, 4);
    }
  }
}
