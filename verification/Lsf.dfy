/**
 Larian's binary resources (src/lsf.cpp): reading a document's sections and
 finding its strings, and writing it back uncompressed. LZ4 and zstd are
 parameters; section method 1 is the DEFLATE reader.
*/
module Lsf {
  import opened BitStrings
  import opened Numbers
  import opened References
  import opened Spelling
  import opened Wrappers
  import Inflate

  const MAX_SECTION := 0x1000_0000

  /** The decoders of methods 2 and 3, by method and whether the section is a frame of blocks. */
  type Codec = (nat, bool, seq<byte>, nat) -> Option<seq<byte>>

  datatype Document = Document(
    prefix: seq<byte>,
    metadataAt: nat,
    version: nat,
    hasKeys: bool,
    strings: seq<byte>,
    nodes: seq<byte>,
    attributes: seq<byte>,
    values: seq<byte>,
    keys: seq<byte>,
    stringValues: seq<Token>)

  // ---- the header ----

  /** A section's sizes, uncompressed and on disk. */
  datatype Sizes = Sizes(uncompressed: nat, onDisk: nat)

  datatype Header = Header(
    strings: Sizes, keys: Sizes, nodes: Sizes, attributes: Sizes, values: Sizes, flags: nat, format: nat)

  predicate Magic(data: seq<byte>) {
    |data| >= 4 && data[..4] == Lit("LSOF")
  }

  function MetadataAt(version: nat): (r: nat)
    ensures r == 12 || r == 16
  {
    if version >= 5 then 16 else 12
  }

  function MetadataSize(version: nat): (r: nat)
    ensures r == 48 || r == 40
  {
    if version >= 6 then 48 else 40
  }

  function SizesAt(data: seq<byte>, at: nat): Sizes {
    Sizes(U32(data, at), U32(data, at + 4))
  }

  function Flags(data: seq<byte>, at: nat): nat {
    if at < |data| then data[at] else 0
  }

  function HeaderAt(data: seq<byte>, at: nat, version: nat): Header {
    if version >= 6 then
      Header(SizesAt(data, at), SizesAt(data, at + 8), SizesAt(data, at + 16), SizesAt(data, at + 24),
             SizesAt(data, at + 32), Flags(data, at + 40), U32(data, at + 44))
    else
      Header(SizesAt(data, at), Sizes(0, 0), SizesAt(data, at + 8), SizesAt(data, at + 16), SizesAt(data, at + 24),
             Flags(data, at + 32), U32(data, at + 36))
  }

  // ---- sections ----

  /** What a section's bytes decode to. */
  ghost function Decoded(codec: Codec, method': nat, frame: bool, input: seq<byte>, size: nat): Option<seq<byte>> {
    if method' == 1 then Inflate.Inflated(input, size)
    else if method' == 2 || method' == 3 then
      var out := codec(method', frame, input, size);
      if out.Some? && |out.value| == size then out else None
    else None
  }

  /** A section at the front of what is left, and what is left after it. */
  ghost function Section(codec: Codec, rest: seq<byte>, version: nat, method': nat, s: Sizes, chunkable: bool)
      : Option<(seq<byte>, seq<byte>)>
  {
    if s.uncompressed > MAX_SECTION || s.onDisk > MAX_SECTION then None
    else if s.uncompressed == 0 then (if s.onDisk == 0 then Some(([], rest)) else None)
    else if s.onDisk == 0 || method' == 0 then
      (if s.uncompressed > |rest| then None else Some((rest[..s.uncompressed], rest[s.uncompressed..])))
    else if s.onDisk > |rest| then None
    else
      var out := Decoded(codec, method', chunkable && version >= 2, rest[..s.onDisk], s.uncompressed);
      if out == None then None else Some((out.value, rest[s.onDisk..]))
  }

  // ---- names and attributes ----

  /** The `count` names of a chain, and where the next chain begins. */
  function ReadChain(buf: seq<byte>, at: nat, count: nat): Option<(seq<Text>, nat)>
    decreases count
  {
    if count == 0 then Some(([], at))
    else if at + 2 > |buf| || at + 2 + U16(buf, at) > |buf| then None
    else
      var next := at + 2 + U16(buf, at);
      var rest := ReadChain(buf, next, count - 1);
      if rest == None then None else Some(([buf[at + 2..next]] + rest.value.0, rest.value.1))
  }

  function ReadChains(buf: seq<byte>, at: nat, chains: nat): Option<seq<seq<Text>>>
    decreases chains
  {
    if chains == 0 then Some([])
    else if at + 2 > |buf| then None
    else
      var chain := ReadChain(buf, at + 2, U16(buf, at));
      if chain == None then None
      else
        var rest := ReadChains(buf, chain.value.1, chains - 1);
        if rest == None then None else Some([chain.value.0] + rest.value)
  }

  function ReadNames(buf: seq<byte>): Option<seq<seq<Text>>> {
    if |buf| < 4 then None else ReadChains(buf, 4, U32(buf, 0))
  }

  predicate IsStringType(t: nat) {
    t == 20 || t == 21 || t == 22 || t == 23 || t == 29 || t == 30
  }

  function NameOf(names: seq<seq<Text>>, name: nat): Text {
    var chain, link := name / 0x10000, name % 0x10000;
    if chain < |names| && link < |names[chain]| then names[chain][link] else []
  }

  /** An attribute's string, if it is one and lies within the values. */
  function StringAt(attributes: seq<byte>, at: nat, size: nat, names: seq<seq<Text>>, offset: nat): seq<Token> {
    var typeAndLength := U32(attributes, at + 4);
    var length := typeAndLength / 64;
    if IsStringType(typeAndLength % 64) && length > 1 && offset + length <= size
    then [Token(offset, length - 1, NameOf(names, U32(attributes, at)))]
    else []
  }

  /** Where an attribute's value is: told from version 3 on, after the last one's before that. */
  function OffsetAt(attributes: seq<byte>, at: nat, explicit: bool, offset: nat): nat {
    if explicit then U32(attributes, at + 12) else offset
  }

  function OffsetAfter(attributes: seq<byte>, at: nat, explicit: bool, offset: nat): nat {
    if explicit then OffsetAt(attributes, at, explicit, offset)
    else (offset + U32(attributes, at + 4) / 64) % TWO_32
  }

  function StringsFrom(attributes: seq<byte>, at: nat, explicit: bool, size: nat, names: seq<seq<Text>>, offset: nat)
      : seq<Token>
    requires at <= |attributes|
    decreases |attributes| - at
  {
    var step := if explicit then 16 else 12;
    if at + step > |attributes| then []
    else
      StringAt(attributes, at, size, names, OffsetAt(attributes, at, explicit, offset))
      + StringsFrom(attributes, at + step, explicit, size, names, OffsetAfter(attributes, at, explicit, offset))
  }

  // ---- documents ----

  ghost function ReadSections(codec: Codec, rest: seq<byte>, version: nat, h: Header): Option<Document> {
    var m := h.flags % 16;
    var strings :- Section(codec, rest, version, m, h.strings, false);
    var nodes :- Section(codec, strings.1, version, m, h.nodes, true);
    var attributes :- Section(codec, nodes.1, version, m, h.attributes, true);
    var values :- Section(codec, attributes.1, version, m, h.values, true);
    var hasKeys := version >= 6 && h.format == 1;
    var keys :- if hasKeys then Section(codec, values.1, version, m, h.keys, true) else Some(([], []));
    var names :- ReadNames(strings.0);
    Some(Document([], 0, version, hasKeys, strings.0, nodes.0, attributes.0, values.0, keys.0,
                  StringsFrom(attributes.0, 0, version >= 3 && h.format == 1, |values.0|, names, 0)))
  }

  ghost function Read(codec: Codec, data: seq<byte>): Option<Document> {
    if |data| < 12 || !Magic(data) then None
    else
      var version := U32(data, 4);
      if version < 1 || version > 7 then None
      else
        var at := MetadataAt(version);
        var end := at + MetadataSize(version);
        if |data| < end then None
        else
          var d :- ReadSections(codec, data[end..], version, HeaderAt(data, at, version));
          Some(d.(prefix := data[..end], metadataAt := at))
  }

  // ---- writing ----

  /** The sizes a document is written with: nothing is compressed, and nothing has a size on disk. */
  function SizeWords(d: Document): seq<nat> {
    if d.version >= 6 then
      [|d.strings|, 0, |d.keys|, 0, |d.nodes|, 0, |d.attributes|, 0, |d.values|, 0]
    else [|d.strings|, 0, |d.nodes|, 0, |d.attributes|, 0, |d.values|, 0]
  }

  predicate PrefixOk(d: Document) {
    d.metadataAt == MetadataAt(d.version) && |d.prefix| == d.metadataAt + MetadataSize(d.version)
  }

  function Prefix(d: Document): (r: seq<byte>)
    requires PrefixOk(d)
    ensures |r| == |d.prefix|
  {
    var words := SizeWords(d);
    d.prefix[..d.metadataAt] + Words(words) + [0] + d.prefix[d.metadataAt + 4 * |words| + 1..]
  }

  function Written(d: Document): seq<byte>
    requires PrefixOk(d)
  {
    Prefix(d) + d.strings + d.nodes + d.attributes + d.values + (if d.hasKeys then d.keys else [])
  }

  // ---- what reading gives ----

  function FormatAt(version: nat): nat {
    if version >= 6 then 44 else 36
  }

  function Format(d: Document): nat {
    U32(d.prefix, d.metadataAt + FormatAt(d.version))
  }

  predicate Small(d: Document) {
    && |d.strings| <= MAX_SECTION && |d.nodes| <= MAX_SECTION && |d.attributes| <= MAX_SECTION
    && |d.values| <= MAX_SECTION && |d.keys| <= MAX_SECTION
  }

  /** The strings that a document's attributes say there are. */
  function Strings(d: Document): Option<seq<Token>> {
    var names := ReadNames(d.strings);
    if names == None then None
    else Some(StringsFrom(d.attributes, 0, d.version >= 3 && Format(d) == 1, |d.values|, names.value, 0))
  }

  predicate DocumentOk(d: Document) {
    && PrefixOk(d) && Magic(d.prefix) && U32(d.prefix, 4) == d.version && 1 <= d.version <= 7
    && d.hasKeys == (d.version >= 6 && Format(d) == 1) && (!d.hasKeys ==> d.keys == [])
    && Small(d) && Strings(d) == Some(d.stringValues)
  }

  lemma SectionSize(codec: Codec, rest: seq<byte>, version: nat, method': nat, s: Sizes, chunkable: bool)
    ensures var r := Section(codec, rest, version, method', s, chunkable);
      r.Some? ==> |r.value.0| == s.uncompressed <= MAX_SECTION
  {
    hide Inflate.StreamMeaning, Inflate.Body;
  }

  lemma SectionsRead(codec: Codec, rest: seq<byte>, version: nat, h: Header)
    ensures var r := ReadSections(codec, rest, version, h);
      r.Some? ==>
        var d := r.value;
        && Small(d) && d.version == version && d.hasKeys == (version >= 6 && h.format == 1)
        && (!d.hasKeys ==> d.keys == []) && ReadNames(d.strings).Some?
        && d.stringValues ==
             StringsFrom(d.attributes, 0, version >= 3 && h.format == 1, |d.values|, ReadNames(d.strings).value, 0)
  {
    hide Section, ReadNames, StringsFrom;
    var m := h.flags % 16;
    var strings := Section(codec, rest, version, m, h.strings, false);
    SectionSize(codec, rest, version, m, h.strings, false);
    if strings.Some? {
      var nodes := Section(codec, strings.value.1, version, m, h.nodes, true);
      SectionSize(codec, strings.value.1, version, m, h.nodes, true);
      if nodes.Some? {
        var attributes := Section(codec, nodes.value.1, version, m, h.attributes, true);
        SectionSize(codec, nodes.value.1, version, m, h.attributes, true);
        if attributes.Some? {
          var values := Section(codec, attributes.value.1, version, m, h.values, true);
          SectionSize(codec, attributes.value.1, version, m, h.values, true);
          if values.Some? {
            SectionSize(codec, values.value.1, version, m, h.keys, true);
          }
        }
      }
    }
  }

  /** What is read is a document: its strings are those of its attributes, and nothing is too large. */
  lemma ReadIsDocument(codec: Codec, data: seq<byte>)
    ensures Read(codec, data).Some? ==> DocumentOk(Read(codec, data).value)
  {
    hide ReadSections, StringsFrom, ReadNames, Lit, Number;
    if Read(codec, data).Some? {
      var version := U32(data, 4);
      var at := MetadataAt(version);
      var end := at + MetadataSize(version);
      SectionsRead(codec, data[end..], version, HeaderAt(data, at, version));
      LocalNumber(data, data[..end], 4);
      LocalNumber(data, data[..end], at + FormatAt(version));
    }
  }

  lemma LocalNumber(a: seq<byte>, b: seq<byte>, at: nat)
    requires at + 4 <= |a| && at + 4 <= |b| && a[at..at + 4] == b[at..at + 4]
    ensures U32(a, at) == U32(b, at)
  {
    NumberIsLocal(a, at, b, at, 4);
  }

  // ---- what writing gives ----

  predicate WordsAt(data: seq<byte>, at: nat, values: seq<nat>) {
    forall i :: 0 <= i < |values| ==> U32(data, at + 4 * i) == values[i]
  }

  lemma SizesWritten(d: Document, rest: seq<byte>)
    requires DocumentOk(d)
    ensures WordsAt(Prefix(d) + rest, d.metadataAt, SizeWords(d))
  {
    hide Words, Strings, Magic, Number, MetadataAt, MetadataSize;
    var values := SizeWords(d);
    var data := Prefix(d) + rest;
    var tail := [0] + d.prefix[d.metadataAt + 4 * |values| + 1..] + rest;
    assert data == d.prefix[..d.metadataAt] + Words(values) + tail;
    forall i | 0 <= i < |values|
      ensures U32(data, d.metadataAt + 4 * i) == values[i]
    {
      WordAt(values, d.prefix[..d.metadataAt], tail, i);
    }
  }

  /** The header as a document is written: nothing on disk but the bytes, and no method. */
  function PlainHeader(d: Document): Header {
    Header(Sizes(|d.strings|, 0), if d.version >= 6 then Sizes(|d.keys|, 0) else Sizes(0, 0), Sizes(|d.nodes|, 0),
           Sizes(|d.attributes|, 0), Sizes(|d.values|, 0), 0, Format(d))
  }

  lemma WordPair(data: seq<byte>, at: nat, values: seq<nat>, i: nat)
    requires WordsAt(data, at, values) && 2 * i + 1 < |values|
    ensures SizesAt(data, at + 8 * i) == Sizes(values[2 * i], values[2 * i + 1])
  {
    hide U32;
    assert U32(data, at + 4 * (2 * i)) == values[2 * i] && U32(data, at + 4 * (2 * i + 1)) == values[2 * i + 1];
  }

  lemma FlagsWritten(d: Document, rest: seq<byte>)
    requires DocumentOk(d)
    ensures Flags(Prefix(d) + rest, d.metadataAt + (if d.version >= 6 then 40 else 32)) == 0
  {
    hide Words, Strings, Magic, U32;
  }

  lemma TailKept(d: Document, rest: seq<byte>, at: nat)
    requires DocumentOk(d) && d.metadataAt + 4 * |SizeWords(d)| + 1 <= at && at + 4 <= |d.prefix|
    ensures U32(Prefix(d) + rest, at) == U32(d.prefix, at)
  {
    hide Words, Strings, Magic, U32;
    var data := Prefix(d) + rest;
    assert data[at..at + 4] == d.prefix[at..at + 4];
    LocalNumber(data, d.prefix, at);
  }

  lemma FrontKept(d: Document, rest: seq<byte>)
    requires DocumentOk(d)
    ensures Magic(Prefix(d) + rest) && U32(Prefix(d) + rest, 4) == d.version
  {
    hide Words, Strings, U32, Lit;
    var data := Prefix(d) + rest;
    assert data[..4] == d.prefix[..4] && data[4..8] == d.prefix[4..8];
    LocalNumber(data, d.prefix, 4);
  }

  lemma HeaderOfTen(data: seq<byte>, at: nat, values: seq<nat>, version: nat)
    requires version >= 6 && |values| == 10 && WordsAt(data, at, values)
    ensures HeaderAt(data, at, version) ==
      Header(Sizes(values[0], values[1]), Sizes(values[2], values[3]), Sizes(values[4], values[5]),
             Sizes(values[6], values[7]), Sizes(values[8], values[9]), Flags(data, at + 40), U32(data, at + 44))
  {
    hide U32, WordsAt, SizesAt, Flags;
    WordPair(data, at, values, 0);
    WordPair(data, at, values, 1);
    WordPair(data, at, values, 2);
    WordPair(data, at, values, 3);
    WordPair(data, at, values, 4);
  }

  lemma HeaderOfEight(data: seq<byte>, at: nat, values: seq<nat>, version: nat)
    requires version < 6 && |values| == 8 && WordsAt(data, at, values)
    ensures HeaderAt(data, at, version) ==
      Header(Sizes(values[0], values[1]), Sizes(0, 0), Sizes(values[2], values[3]), Sizes(values[4], values[5]),
             Sizes(values[6], values[7]), Flags(data, at + 32), U32(data, at + 36))
  {
    hide U32, WordsAt, SizesAt, Flags;
    WordPair(data, at, values, 0);
    WordPair(data, at, values, 1);
    WordPair(data, at, values, 2);
    WordPair(data, at, values, 3);
  }

  /** The header as it is written is read back. */
  lemma HeaderWritten(d: Document, rest: seq<byte>)
    requires DocumentOk(d)
    ensures HeaderAt(Prefix(d) + rest, d.metadataAt, d.version) == PlainHeader(d)
  {
    hide Prefix, Strings, Magic, U32, WordsAt, HeaderAt, Flags, MetadataAt, Small;
    var data := Prefix(d) + rest;
    var values := SizeWords(d);
    SizesWritten(d, rest);
    FlagsWritten(d, rest);
    TailKept(d, rest, d.metadataAt + FormatAt(d.version));
    if d.version >= 6 {
      HeaderOfTen(data, d.metadataAt, values, d.version);
    } else {
      HeaderOfEight(data, d.metadataAt, values, d.version);
    }
  }

  /** A section written as it is reads back as it is. */
  lemma PlainSection(codec: Codec, bytes: seq<byte>, rest: seq<byte>, version: nat, chunkable: bool)
    requires |bytes| <= MAX_SECTION
    ensures Section(codec, bytes + rest, version, 0, Sizes(|bytes|, 0), chunkable) == Some((bytes, rest))
  {
    if bytes == [] {
      assert bytes + rest == rest;
    } else {
      assert (bytes + rest)[..|bytes|] == bytes && (bytes + rest)[|bytes|..] == rest;
    }
  }

  lemma SectionsWritten(codec: Codec, d: Document)
    requires DocumentOk(d)
    ensures var rest := d.strings + (d.nodes + (d.attributes + (d.values + (if d.hasKeys then d.keys else []))));
      ReadSections(codec, rest, d.version, PlainHeader(d)) == Some(d.(prefix := [], metadataAt := 0))
  {
    hide Section, ReadNames, StringsFrom, Magic, PrefixOk, Format, U32;
    var keys := if d.hasKeys then d.keys else [];
    PlainSection(codec, d.strings, d.nodes + (d.attributes + (d.values + keys)), d.version, false);
    PlainSection(codec, d.nodes, d.attributes + (d.values + keys), d.version, true);
    PlainSection(codec, d.attributes, d.values + keys, d.version, true);
    PlainSection(codec, d.values, keys, d.version, true);
    if d.hasKeys {
      assert d.keys + [] == d.keys;
      PlainSection(codec, d.keys, [], d.version, true);
    }
  }

  lemma ReadParts(codec: Codec, prefix: seq<byte>, rest: seq<byte>, version: nat)
    requires Magic(prefix) && U32(prefix + rest, 4) == version && 1 <= version <= 7
    requires |prefix| == MetadataAt(version) + MetadataSize(version)
    ensures var d := ReadSections(codec, rest, version, HeaderAt(prefix + rest, MetadataAt(version), version));
      Read(codec, prefix + rest) ==
        if d == None then None else Some(d.value.(prefix := prefix, metadataAt := MetadataAt(version)))
  {
    hide ReadSections, HeaderAt, U32, Lit;
    var data := prefix + rest;
    assert data[..4] == prefix[..4];
    assert data[|prefix|..] == rest && data[..|prefix|] == prefix;
  }

  /** What is written reads back: every section, whether there are keys, and every string. */
  lemma WrittenReads(codec: Codec, d: Document)
    requires DocumentOk(d)
    ensures Read(codec, Written(d)) == Some(d.(prefix := Prefix(d)))
  {
    hide Prefix, Strings, ReadSections, HeaderAt, PlainHeader, U32, Magic, Read, Small, MetadataAt, MetadataSize;
    var rest := d.strings + (d.nodes + (d.attributes + (d.values + (if d.hasKeys then d.keys else []))));
    assert Written(d) == Prefix(d) + rest;
    FrontKept(d, rest);
    FrontKept(d, []);
    assert Prefix(d) + [] == Prefix(d);
    HeaderWritten(d, rest);
    SectionsWritten(codec, d);
    ReadParts(codec, Prefix(d), rest, d.version);
  }

  lemma PrefixAgain(d: Document)
    requires PrefixOk(d)
    ensures PrefixOk(d.(prefix := Prefix(d))) && Prefix(d.(prefix := Prefix(d))) == Prefix(d)
  {
    hide Words;
    var end := d.metadataAt + 4 * |SizeWords(d)| + 1;
    assert Prefix(d)[end..] == d.prefix[end..] && Prefix(d)[..d.metadataAt] == d.prefix[..d.metadataAt];
  }

  /** Writing again what was read back gives the same bytes. */
  lemma WritingIsFixpoint(d: Document)
    requires DocumentOk(d)
    ensures DocumentOk(d.(prefix := Prefix(d))) && Written(d.(prefix := Prefix(d))) == Written(d)
  {
    PrefixAgain(d);
    FrontKept(d, []);
    assert Prefix(d) + [] == Prefix(d);
    TailKept(d, [], d.metadataAt + FormatAt(d.version));
    hide Prefix, StringsFrom, ReadNames, Magic, U32;
  }

  /** Values edited in place are a document's values all the same: its strings are where they were. */
  lemma EditedIsDocument(d: Document, values: seq<byte>)
    requires DocumentOk(d) && |values| == |d.values|
    ensures DocumentOk(d.(values := values))
  {
    hide StringsFrom, ReadNames, Magic, U32;
  }

  /**
   A document that is read, edited in place and written reads back as that
   edit of it and nothing else, and is then written as the same bytes.
  */
  lemma EditsSurvive(codec: Codec, data: seq<byte>, values: seq<byte>)
    requires Read(codec, data).Some? && |values| == |Read(codec, data).value.values|
    ensures var d := Read(codec, data).value.(values := values);
      && DocumentOk(d)
      && Read(codec, Written(d)) == Some(d.(prefix := Prefix(d)))
      && Written(Read(codec, Written(d)).value) == Written(d)
  {
    hide Read, DocumentOk, Written, Prefix;
    ReadIsDocument(codec, data);
    EditedIsDocument(Read(codec, data).value, values);
    var d := Read(codec, data).value.(values := values);
    WrittenReads(codec, d);
    WritingIsFixpoint(d);
  }

  lemma {:induction false} StringsWithin(attributes: seq<byte>, at: nat, explicit: bool, size: nat,
                                         names: seq<seq<Text>>, offset: nat)
    requires at <= |attributes|
    ensures forall t :: t in StringsFrom(attributes, at, explicit, size, names, offset) ==>
      0 < t.len && t.pos + t.len < size
    decreases |attributes| - at
  {
    hide U32, NameOf;
    var step := if explicit then 16 else 12;
    if at + step <= |attributes| {
      StringsWithin(attributes, at + step, explicit, size, names, OffsetAfter(attributes, at, explicit, offset));
    }
  }
}
