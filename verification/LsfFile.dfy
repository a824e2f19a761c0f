/**
 The reader and writer of src/lsf.cpp: a position that moves over the
 sections, and loops over names and attributes.
*/
module LsfFile {
  import opened BitStrings
  import opened Lsf
  import opened Numbers
  import opened References
  import opened Sequences
  import opened Spelling
  import opened Wrappers
  import Inflate

  class Reader {
    const data: seq<byte>
    var at: nat
    const compression: nat
    const version: nat

    constructor (data: seq<byte>, at: nat, compression: nat, version: nat)
      requires at <= |data|
      ensures this.data == data && this.at == at && this.compression == compression && this.version == version
    {
      this.data, this.at, this.compression, this.version := data, at, compression, version;
    }

    predicate Valid()
      reads this`at
    {
      at <= |data|
    }

    function Rest(): seq<byte>
      requires Valid()
      reads this`at
    {
      data[at..]
    }

    /** The next section, decompressed; the position moves past it. */
    method Take(codec: Codec, s: Sizes, chunkable: bool) returns (ok: bool, out: seq<byte>)
      requires Valid()
      modifies this`at
      ensures Valid()
      ensures var r := Section(codec, old(Rest()), version, compression, s, chunkable);
        ok == r.Some? && (ok ==> out == r.value.0 && Rest() == r.value.1)
    {
      hide Inflate.Inflated;
      out := [];
      if s.uncompressed > MAX_SECTION || s.onDisk > MAX_SECTION {
        return false, out;
      }
      if s.uncompressed == 0 {
        return s.onDisk == 0, out;
      }
      if s.onDisk == 0 || compression == 0 {
        if at + s.uncompressed > |data| {
          return false, out;
        }
        out := data[at..at + s.uncompressed];
        at := at + s.uncompressed;
        return true, out;
      }
      if at + s.onDisk > |data| {
        return false, out;
      }
      var input := data[at..at + s.onDisk];
      assert input == Rest()[..s.onDisk];
      at := at + s.onDisk;
      ok, out := Decode(codec, compression, chunkable && version >= 2, input, s.uncompressed);
    }
  }

  /** A section's bytes decoded, by its method. */
  method Decode(codec: Codec, compression: nat, frame: bool, input: seq<byte>, size: nat)
      returns (ok: bool, out: seq<byte>)
    ensures var r := Decoded(codec, compression, frame, input, size);
      ok == r.Some? && (ok ==> out == r.value)
  {
    hide Inflate.Inflated;
    out := [];
    if compression == 1 {
      var buffer := new byte[size](_ => 0);
      ok := Inflate.Inflate(input, buffer);
      out := buffer[..];
    } else if compression == 2 || compression == 3 {
      var got := codec(compression, frame, input, size);
      ok := got.Some? && |got.value| == size;
      out := if ok then got.value else [];
    } else {
      ok := false;
    }
  }

  // ---- names ----

  function WithNames(done: seq<Text>, rest: Option<(seq<Text>, nat)>): Option<(seq<Text>, nat)> {
    if rest == None then None else Some((done + rest.value.0, rest.value.1))
  }

  function WithChains(done: seq<seq<Text>>, rest: Option<seq<seq<Text>>>): Option<seq<seq<Text>>> {
    if rest == None then None else Some(done + rest.value)
  }

  method TakeChain(buf: seq<byte>, from: nat, count: nat) returns (ok: bool, chain: seq<Text>, at: nat)
    ensures var r := ReadChain(buf, from, count);
      ok == r.Some? && (ok ==> chain == r.value.0 && at == r.value.1)
  {
    hide U16;
    chain, at := [], from;
    var left: nat := count;
    NamesFrom(ReadChain(buf, from, count));
    while left > 0
      invariant left <= count
      invariant ReadChain(buf, from, count) == WithNames(chain, ReadChain(buf, at, left))
    {
      if at + 2 > |buf| {
        return false, chain, at;
      }
      var length := U16(buf, at);
      if at + 2 + length > |buf| {
        return false, chain, at;
      }
      ghost var rest := ReadChain(buf, at + 2 + length, left - 1);
      NamesAssoc(chain, buf[at + 2..at + 2 + length], rest);
      chain := chain + [buf[at + 2..at + 2 + length]];
      at := at + 2 + length;
      left := left - 1;
    }
    ChainEnds(chain, buf, at);
    return true, chain, at;
  }

  lemma NamesFrom(rest: Option<(seq<Text>, nat)>)
    ensures WithNames([], rest) == rest
  {
    if rest.Some? {
      assert [] + rest.value.0 == rest.value.0;
    }
  }

  lemma ChainsFrom(rest: Option<seq<seq<Text>>>)
    ensures WithChains([], rest) == rest
  {
    if rest.Some? {
      assert [] + rest.value == rest.value;
    }
  }

  lemma ChainEnds(done: seq<Text>, buf: seq<byte>, at: nat)
    ensures WithNames(done, ReadChain(buf, at, 0)) == Some((done, at))
  {
    assert done + [] == done;
  }

  lemma NamesAssoc(done: seq<Text>, name: Text, rest: Option<(seq<Text>, nat)>)
    ensures WithNames(done, WithNames([name], rest)) == WithNames(done + [name], rest)
  {
    if rest.Some? {
      assert done + ([name] + rest.value.0) == done + [name] + rest.value.0;
    }
  }

  lemma ChainsAssoc(done: seq<seq<Text>>, chain: seq<Text>, rest: Option<seq<seq<Text>>>)
    ensures WithChains(done, WithChains([chain], rest)) == WithChains(done + [chain], rest)
  {
    if rest.Some? {
      assert done + ([chain] + rest.value) == done + [chain] + rest.value;
    }
  }

  method TakeNames(buf: seq<byte>) returns (names: Option<seq<seq<Text>>>)
    ensures names == ReadNames(buf)
  {
    hide U16, U32, ReadChain;
    if |buf| < 4 {
      return None;
    }
    var left: nat := U32(buf, 0);
    var at: nat := 4;
    ChainsFrom(ReadChains(buf, 4, left));
    var out: seq<seq<Text>> := [];
    while left > 0
      invariant ReadNames(buf) == WithChains(out, ReadChains(buf, at, left))
    {
      if at + 2 > |buf| {
        return None;
      }
      var ok, chain, next := TakeChain(buf, at + 2, U16(buf, at));
      if !ok {
        return None;
      }
      ChainsAssoc(out, chain, ReadChains(buf, next, left - 1));
      out := out + [chain];
      at := next;
      left := left - 1;
    }
    assert out + [] == out;
    return Some(out);
  }

  /** The strings among the attributes, each with its place in the values and the name of its attribute. */
  method TakeStrings(attributes: seq<byte>, explicit: bool, size: nat, names: seq<seq<Text>>) returns (out: seq<Token>)
    ensures out == StringsFrom(attributes, 0, explicit, size, names, 0)
  {
    hide U32, StringsFrom, StringAt;
    out := [];
    var step := if explicit then 16 else 12;
    var at: nat, offset: nat := 0, 0;
    assert [] + StringsFrom(attributes, 0, explicit, size, names, 0) ==
      StringsFrom(attributes, 0, explicit, size, names, 0);
    while at + step <= |attributes|
      invariant at <= |attributes|
      invariant out + StringsFrom(attributes, at, explicit, size, names, offset)
             == StringsFrom(attributes, 0, explicit, size, names, 0)
    {
      StringsStep(attributes, at, explicit, size, names, offset);
      var place := if explicit then U32(attributes, at + 12) else offset;
      Assoc(out, StringAt(attributes, at, size, names, place),
            StringsFrom(attributes, at + step, explicit, size, names, OffsetAfter(attributes, at, explicit, offset)));
      out := out + StringAt(attributes, at, size, names, place);
      offset := if explicit then place else (offset + U32(attributes, at + 4) / 64) % TWO_32;
      at := at + step;
    }
    StringsEnd(attributes, at, explicit, size, names, offset);
  }

  lemma StringsStep(attributes: seq<byte>, at: nat, explicit: bool, size: nat, names: seq<seq<Text>>, offset: nat)
    requires at + (if explicit then 16 else 12) <= |attributes|
    ensures StringsFrom(attributes, at, explicit, size, names, offset) ==
      StringAt(attributes, at, size, names, OffsetAt(attributes, at, explicit, offset))
      + StringsFrom(attributes, at + (if explicit then 16 else 12), explicit, size, names,
                    OffsetAfter(attributes, at, explicit, offset))
  {
  }

  lemma StringsEnd(attributes: seq<byte>, at: nat, explicit: bool, size: nat, names: seq<seq<Text>>, offset: nat)
    requires at <= |attributes| < at + (if explicit then 16 else 12)
    ensures StringsFrom(attributes, at, explicit, size, names, offset) == []
  {
  }

  /** Reads a document; none if this is not one, or is not understood. */
  method LsfRead(codec: Codec, data: seq<byte>) returns (r: Option<Document>)
    ensures r == Read(codec, data)
  {
    hide Section, ReadNames, StringsFrom, U32, Lit;
    if |data| < 12 || !Magic(data) {
      return None;
    }
    var version := U32(data, 4);
    if version < 1 || version > 7 {
      return None;
    }
    var at := 8 + (if version >= 5 then 8 else 4);
    var size := if version >= 6 then 48 else 40;
    if |data| < at + size {
      return None;
    }
    r := ReadBody(codec, data, at, at + size, version, HeaderAt(data, at, version));
  }

  method ReadBody(codec: Codec, data: seq<byte>, at: nat, end: nat, version: nat, h: Header)
      returns (r: Option<Document>)
    requires at <= end <= |data|
    ensures var d := ReadSections(codec, data[end..], version, h);
      r == if d == None then None else Some(d.value.(prefix := data[..end], metadataAt := at))
  {
    hide Section, ReadNames, StringsFrom, U32;
    var reader := new Reader(data, end, h.flags % 16, version);
    var ok, strings := reader.Take(codec, h.strings, false);
    if !ok {
      return None;
    }
    var nodes, attributes, values, keys: seq<byte>;
    ok, nodes := reader.Take(codec, h.nodes, true);
    if !ok {
      return None;
    }
    ok, attributes := reader.Take(codec, h.attributes, true);
    if !ok {
      return None;
    }
    ok, values := reader.Take(codec, h.values, true);
    if !ok {
      return None;
    }
    var hasKeys := version >= 6 && h.format == 1;
    keys := [];
    if hasKeys {
      ok, keys := reader.Take(codec, h.keys, true);
      if !ok {
        return None;
      }
    }
    var names := TakeNames(strings);
    if names == None {
      return None;
    }
    var tokens := TakeStrings(attributes, version >= 3 && h.format == 1, |values|, names.value);
    return Some(Document(data[..end], at, version, hasKeys, strings, nodes, attributes, values, keys, tokens));
  }

  // ---- writing ----

  lemma WordsOfOne(values: seq<nat>, v: nat)
    ensures Words(values + [v]) == Words(values) + Le(v, 4)
  {
    assert (values + [v])[..|values|] == values;
  }

  /** Puts numbers into a header one after the other, in place. */
  method PutAll(header: seq<byte>, at: nat, values: seq<nat>) returns (out: seq<byte>)
    requires at + 4 * |values| <= |header|
    ensures out == header[..at] + Words(values) + header[at + 4 * |values|..]
  {
    hide Le;
    out := header;
    for i := 0 to |values|
      invariant out == header[..at] + Words(values[..i]) + header[at + 4 * i..]
    {
      assert values[..i + 1] == values[..i] + [values[i]];
      WordsOfOne(values[..i], values[i]);
      out := out[..at + 4 * i] + Le(values[i], 4) + out[at + 4 * i + 4..];
    }
    assert values[..|values|] == values;
  }

  /** The document as an uncompressed file. */
  method LsfWrite(d: Document) returns (out: seq<byte>)
    requires PrefixOk(d)
    ensures out == Written(d)
  {
    hide Words;
    var values := if d.version >= 6 then
      [|d.strings|, 0, |d.keys|, 0, |d.nodes|, 0, |d.attributes|, 0, |d.values|, 0]
    else [|d.strings|, 0, |d.nodes|, 0, |d.attributes|, 0, |d.values|, 0];
    out := PutAll(d.prefix, d.metadataAt, values);
    out := out[d.metadataAt + 4 * |values| := 0];
    assert out == Prefix(d);
    out := out + d.strings + d.nodes + d.attributes + d.values;
    if d.hasKeys {
      out := out + d.keys;
    }
  }
}
