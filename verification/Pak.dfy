/**
 Larian's archives (src/pak.cpp): the header, the packed list of entries of
 either shape, and an entry's contents. LZ4 and the other decoders are
 parameters.
*/
module Pak {
  import opened BitStrings
  import opened Numbers
  import opened Spelling
  import opened Wrappers

  const HEADER_SIZE := 40
  const MAX_FILES := 0x40_0000
  const MAX_LIST := 0x1000_0000
  const MAX_FILE := 0x1000_0000
  const NAME_SIZE := 256

  /** LZ4's block coder; decoding gives so many bytes or fails. */
  datatype Lz4 = Lz4(compress: seq<byte> -> Option<seq<byte>>, decompress: (seq<byte>, nat) -> Option<seq<byte>>)

  ghost predicate Inverts(lz: Lz4, data: seq<byte>) {
    lz.compress(data).Some? ==> lz.decompress(lz.compress(data).value, |data|) == Some(data)
  }

  datatype PakFile = PakFile(
    name: Text, offset: nat, sizeOnDisk: nat, uncompressedSize: nat, flags: nat, part: nat, crc: nat)

  datatype Listing = Listing(
    version: nat, flags: nat, parts: nat, listOffset: nat, listSize: nat, listCompressed: nat, files: seq<PakFile>)

  // ---- entries ----

  function EntrySize(version: nat): (r: nat)
    ensures r == 272 || r == 296
  {
    if version == 18 then 272 else 296
  }

  function Zeros(n: nat): (r: seq<byte>)
    ensures |r| == n
  {
    seq(n, _ => 0)
  }

  function NameField(name: Text): (r: seq<byte>)
    requires |name| <= NAME_SIZE
    ensures |r| == NAME_SIZE
  {
    name + Zeros(NAME_SIZE - |name|)
  }

  /** The bytes up to the first zero, or all of them. */
  function CString(field: seq<byte>): Text {
    field[..FirstFrom(field, 0, 0)]
  }

  function EntryFields(version: nat, f: PakFile): (r: seq<Field>)
    ensures |r| == if version == 18 then 6 else 7
  {
    if version == 18 then
      [Field(f.offset % TWO_32, 4), Field(f.offset / TWO_32, 2), Field(f.part, 1), Field(f.flags, 1),
       Field(f.sizeOnDisk, 4), Field(f.uncompressedSize, 4)]
    else
      [Field(f.offset, 8), Field(f.sizeOnDisk, 8), Field(f.uncompressedSize, 8), Field(f.part, 4), Field(f.flags, 4),
       Field(f.crc, 4), Field(0, 4)]
  }

  function EntryBytes(version: nat, f: PakFile): seq<byte>
    requires |f.name| < NAME_SIZE
  {
    NameField(f.name) + Packed(EntryFields(version, f))
  }

  function EntryAt(version: nat, e: seq<byte>): PakFile
    requires |e| == EntrySize(version)
  {
    var name := CString(e[..NAME_SIZE]);
    if version == 18 then
      PakFile(name, Number(e, 256, 4) + TWO_32 * Number(e, 260, 2), Number(e, 264, 4), Number(e, 268, 4),
              Number(e, 263, 1), Number(e, 262, 1), 0)
    else
      PakFile(name, Number(e, 256, 8), Number(e, 264, 8), Number(e, 272, 8), Number(e, 284, 4) % 256,
              Number(e, 280, 4), Number(e, 288, 4))
  }

  /** What the fields of an entry hold. */
  predicate Fits(version: nat, f: PakFile) {
    && |f.name| < NAME_SIZE && 0 !in f.name && f.flags < 256
    && if version == 18 then
         f.offset < TWO_16 * TWO_32 && f.sizeOnDisk < TWO_32 && f.uncompressedSize < TWO_32 && f.part < 256
       else
         && f.offset < TWO_32 * TWO_32 && f.sizeOnDisk < TWO_32 * TWO_32 && f.uncompressedSize < TWO_32 * TWO_32
         && f.part < TWO_32 && f.crc < TWO_32
  }

  /** An entry as it is kept: version 18 has no checksum. */
  function Stored(version: nat, f: PakFile): PakFile {
    if version == 18 then f.(crc := 0) else f
  }

  function AllStored(version: nat, files: seq<PakFile>): (r: seq<PakFile>)
    ensures |r| == |files| && forall i :: 0 <= i < |files| ==> r[i] == Stored(version, files[i])
  {
    seq(|files|, i requires 0 <= i < |files| => Stored(version, files[i]))
  }

  lemma NameReads(name: Text, rest: seq<byte>)
    requires |name| < NAME_SIZE && 0 !in name
    ensures CString((NameField(name) + rest)[..NAME_SIZE]) == name
  {
    var field := NameField(name);
    assert (field + rest)[..NAME_SIZE] == field;
    FirstUnique(field, 0, 0, |name|);
  }

  lemma MoreSizes()
    ensures Pow2(64) == TWO_32 * TWO_32 && Pow2(8) == 256 && Pow2(16) == TWO_16 && Pow2(32) == TWO_32
  {
    Sizes();
    Pow2Adds(32, 32);
  }

  lemma Starts18(f: PakFile)
    ensures var fields := EntryFields(18, f);
      && FieldStart(fields, 1) == 4 && FieldStart(fields, 2) == 6 && FieldStart(fields, 3) == 7
      && FieldStart(fields, 4) == 8 && FieldStart(fields, 5) == 12 && FieldStart(fields, 6) == 16
  {
    var fields := EntryFields(18, f);
    assert FieldStart(fields, 1) == 4;
    assert FieldStart(fields, 2) == 6;
    assert FieldStart(fields, 3) == 7;
    assert FieldStart(fields, 4) == 8;
  }

  lemma Starts15(version: nat, f: PakFile)
    requires version != 18
    ensures var fields := EntryFields(version, f);
      && FieldStart(fields, 1) == 8 && FieldStart(fields, 2) == 16 && FieldStart(fields, 3) == 24
      && FieldStart(fields, 4) == 28 && FieldStart(fields, 5) == 32 && FieldStart(fields, 6) == 36
      && FieldStart(fields, 7) == 40
  {
    var fields := EntryFields(version, f);
    assert FieldStart(fields, 1) == 8;
    assert FieldStart(fields, 2) == 16;
    assert FieldStart(fields, 3) == 24;
    assert FieldStart(fields, 4) == 28;
    assert FieldStart(fields, 5) == 32;
  }

  lemma EntryLength(version: nat, f: PakFile)
    requires |f.name| < NAME_SIZE
    ensures |EntryBytes(version, f)| == EntrySize(version)
  {
    PackedSize(EntryFields(version, f));
    if version == 18 {
      Starts18(f);
    } else {
      Starts15(version, f);
    }
  }

  lemma EntryFieldReads(version: nat, f: PakFile, k: nat)
    requires |f.name| < NAME_SIZE && k < |EntryFields(version, f)|
    requires EntryFields(version, f)[k].value < Pow2(8 * EntryFields(version, f)[k].width)
    ensures var fields := EntryFields(version, f);
      Number(EntryBytes(version, f), 256 + FieldStart(fields, k), fields[k].width) == fields[k].value
  {
    hide EntryFields, Packed, Number, FieldStart;
    var fields := EntryFields(version, f);
    FieldReads(NameField(f.name), fields, [], k);
    assert NameField(f.name) + Packed(fields) + [] == EntryBytes(version, f);
  }

  /** An entry reads back as it was written. */
  lemma EntryReads(version: nat, f: PakFile)
    requires Fits(version, f)
    ensures |EntryBytes(version, f)| == EntrySize(version) &&
      EntryAt(version, EntryBytes(version, f)) == Stored(version, f)
  {
    EntryLength(version, f);
    NameReads(f.name, Packed(EntryFields(version, f)));
    if version == 18 {
      EntryReads18(f);
    } else {
      EntryReads15(version, f);
    }
  }

  lemma EntryReads18(f: PakFile)
    requires Fits(18, f)
    ensures var e := EntryBytes(18, f);
      && Number(e, 256, 4) == f.offset % TWO_32 && Number(e, 260, 2) == f.offset / TWO_32 && Number(e, 262, 1) == f.part
      && Number(e, 263, 1) == f.flags && Number(e, 264, 4) == f.sizeOnDisk && Number(e, 268, 4) == f.uncompressedSize
  {
    MoreSizes();
    Starts18(f);
    hide Number, EntryBytes, FieldStart, Pow2;
    assert FieldStart(EntryFields(18, f), 0) == 0 by { NoStart(EntryFields(18, f)); }
    EntryFieldReads(18, f, 0);
    EntryFieldReads(18, f, 1);
    EntryFieldReads(18, f, 2);
    EntryFieldReads(18, f, 3);
    EntryFieldReads(18, f, 4);
    EntryFieldReads(18, f, 5);
  }

  lemma NoStart(fields: seq<Field>)
    ensures FieldStart(fields, 0) == 0
  {
  }

  lemma EntryReads15(version: nat, f: PakFile)
    requires version != 18 && Fits(version, f)
    ensures var e := EntryBytes(version, f);
      && Number(e, 256, 8) == f.offset && Number(e, 264, 8) == f.sizeOnDisk && Number(e, 272, 8) == f.uncompressedSize
      && Number(e, 280, 4) == f.part && Number(e, 284, 4) == f.flags && Number(e, 288, 4) == f.crc
  {
    hide Number, EntryBytes, FieldStart, Pow2;
    LongFieldsRead(version, f);
    ShortFieldsRead(version, f);
  }

  lemma LongFieldsRead(version: nat, f: PakFile)
    requires version != 18 && Fits(version, f)
    ensures var e := EntryBytes(version, f);
      Number(e, 256, 8) == f.offset && Number(e, 264, 8) == f.sizeOnDisk && Number(e, 272, 8) == f.uncompressedSize
  {
    MoreSizes();
    Starts15(version, f);
    NoStart(EntryFields(version, f));
    hide Number, EntryBytes, FieldStart, Pow2;
    EntryFieldReads(version, f, 0);
    EntryFieldReads(version, f, 1);
    EntryFieldReads(version, f, 2);
  }

  lemma ShortFieldsRead(version: nat, f: PakFile)
    requires version != 18 && Fits(version, f)
    ensures var e := EntryBytes(version, f);
      Number(e, 280, 4) == f.part && Number(e, 284, 4) == f.flags && Number(e, 288, 4) == f.crc
  {
    MoreSizes();
    Starts15(version, f);
    hide Number, EntryBytes, FieldStart, Pow2;
    EntryFieldReads(version, f, 3);
    EntryFieldReads(version, f, 4);
    EntryFieldReads(version, f, 5);
  }

  // ---- lists ----

  predicate Nameable(files: seq<PakFile>) {
    forall i :: 0 <= i < |files| ==> |files[i].name| < NAME_SIZE
  }

  function ListBytes(version: nat, files: seq<PakFile>): seq<byte>
    requires Nameable(files)
  {
    if files == [] then []
    else ListBytes(version, files[..|files| - 1]) + EntryBytes(version, files[|files| - 1])
  }

  /** As many entries as there are whole ones. */
  function FilesIn(version: nat, list: seq<byte>): seq<PakFile>
    decreases |list|
  {
    if |list| < EntrySize(version) then []
    else
      var n := |list| - EntrySize(version);
      FilesIn(version, list[..n]) + [EntryAt(version, list[n..])]
  }

  function ListSize(version: nat, count: nat): nat {
    if version == 18 then 272 * count else 296 * count
  }

  predicate AllFit(version: nat, files: seq<PakFile>) {
    forall i :: 0 <= i < |files| ==> Fits(version, files[i])
  }

  lemma {:induction false} ListReads(version: nat, files: seq<PakFile>)
    requires AllFit(version, files)
    ensures Nameable(files) && |ListBytes(version, files)| == ListSize(version, |files|)
    ensures FilesIn(version, ListBytes(version, files)) == AllStored(version, files)
  {
    hide EntryBytes, EntryAt;
    if files != [] {
      var n := |files| - 1;
      ListReads(version, files[..n]);
      EntryReads(version, files[n]);
      var list := ListBytes(version, files);
      var m := |list| - EntrySize(version);
      assert list[..m] == ListBytes(version, files[..n]) && list[m..] == EntryBytes(version, files[n]);
      assert AllStored(version, files) == AllStored(version, files[..n]) + [Stored(version, files[n])];
    }
  }

  lemma {:induction false} HowManyFiles(version: nat, list: seq<byte>, count: nat)
    requires |list| == ListSize(version, count)
    ensures |FilesIn(version, list)| == count
    decreases count
  {
    hide EntryAt;
    if count > 0 {
      HowManyFiles(version, list[..|list| - EntrySize(version)], count - 1);
    }
  }

  predicate Magic(data: seq<byte>) {
    |data| >= HEADER_SIZE && data[..4] == Lit("LSPK")
  }

  predicate Understood(version: nat) {
    version == 18 || version == 15 || version == 16
  }

  /** The header of an archive, without its list. */
  function HeaderOf(data: seq<byte>): Listing
    requires |data| >= HEADER_SIZE
  {
    var version := U32(data, 4);
    Listing(version, data[20], if version == 18 then U16(data, 38) else 1, Number(data, 8, 8), U32(data, 16), 0, [])
  }

  /** The packed list at an offset, and how many entries it is said to have. */
  function PackedList(data: seq<byte>, at: nat): Option<(nat, seq<byte>)> {
    var count, compressed := U32(data, at), U32(data, at + 4);
    if count == 0 || count > MAX_FILES || compressed == 0 || compressed > MAX_LIST || at + 8 + compressed > |data|
    then None
    else Some((count, data[at + 8..at + 8 + compressed]))
  }

  /** Every entry of an archive; nothing if it is not one, or is not understood. */
  function ReadListing(lz: Lz4, data: seq<byte>): Option<Listing> {
    if !Magic(data) then None
    else
      var h := HeaderOf(data);
      if !Understood(h.version) then None
      else
        var packed := PackedList(data, h.listOffset);
        if packed == None then None
        else
          var list := lz.decompress(packed.value.1, ListSize(h.version, packed.value.0));
          if list == None || |list.value| != ListSize(h.version, packed.value.0) then None
          else Some(h.(listCompressed := |packed.value.1|, files := FilesIn(h.version, list.value)))
  }

  // ---- writing a list ----

  function Patched(data: seq<byte>, at: nat, part: seq<byte>): (r: seq<byte>)
    requires at + |part| <= |data|
    ensures |r| == |data|
  {
    data[..at] + part + data[at + |part|..]
  }

  /** The header's list size keeps its relation to the compressed size. */
  function NewListSize(listing: Listing, compressed: nat): nat {
    (compressed + TWO_32 + listing.listSize - listing.listCompressed % TWO_32) % TWO_32
  }

  /** The archive with the listing as its list, at its end; nothing if a name is too long or packing fails. */
  function WithListing(lz: Lz4, data: seq<byte>, listing: Listing): Option<seq<byte>>
    requires |data| >= HEADER_SIZE
  {
    if !Nameable(listing.files) then None
    else
      var packed := lz.compress(ListBytes(listing.version, listing.files));
      if packed == None || packed.value == [] then None
      else
        var out := data + Le(|listing.files|, 4) + Le(|packed.value|, 4) + packed.value;
        Some(Patched(out, 8, Le(|data|, 8) + Le(NewListSize(listing, |packed.value|), 4)))
  }

  lemma PatchedParts(data: seq<byte>, at: nat, part: seq<byte>)
    requires at + |part| <= |data|
    ensures Patched(data, at, part)[..at] == data[..at]
    ensures Patched(data, at, part)[at..at + |part|] == part
    ensures Patched(data, at, part)[at + |part|..] == data[at + |part|..]
  {
  }

  lemma SameNumber(a: seq<byte>, b: seq<byte>, at: nat, n: nat)
    requires at + n <= |a| && at + n <= |b| && a[at..at + n] == b[at..at + n]
    ensures Number(a, at, n) == Number(b, at, n)
  {
    NumberIsLocal(a, at, b, at, n);
  }

  lemma HeaderFront(data: seq<byte>, before: seq<byte>)
    requires |data| >= HEADER_SIZE && |before| >= HEADER_SIZE
    requires data[..8] == before[..8] && data[20..40] == before[20..40]
    ensures U32(data, 4) == U32(before, 4) && U16(data, 38) == U16(before, 38) && data[20] == before[20]
    ensures Magic(data) <==> Magic(before)
  {
    hide Number, Lit;
    assert data[4..8] == data[..8][4..8] == before[..8][4..8] == before[4..8];
    assert data[..4] == data[..8][..4] == before[..8][..4] == before[..4];
    assert data[20] == data[20..40][0] == before[20..40][0] == before[20];
    assert data[38..40] == data[20..40][18..20] == before[20..40][18..20] == before[38..40];
    SameNumber(data, before, 4, 4);
    SameNumber(data, before, 38, 2);
  }

  lemma HeaderBack(data: seq<byte>, offset: nat, size: nat)
    requires |data| >= HEADER_SIZE && data[8..20] == Le(offset, 8) + Le(size, 4)
    requires offset < TWO_32 * TWO_32 && size < TWO_32
    ensures Number(data, 8, 8) == offset && U32(data, 16) == size
  {
    MoreSizes();
    hide Number, Le;
    assert data == data[..8] + data[8..20] + data[20..];
    assert data == data[..8] + Le(offset, 8) + (Le(size, 4) + data[20..]);
    NumberWritten(data[..8], offset, 8, Le(size, 4) + data[20..]);
    SmallModulo(offset, Pow2(64));
    assert data == (data[..8] + Le(offset, 8)) + Le(size, 4) + data[20..];
    NumberWritten(data[..8] + Le(offset, 8), size, 4, data[20..]);
    SmallModulo(size, Pow2(32));
  }

  /** Where the list is put is read back from the header; the rest of the header is as it was. */
  lemma HeaderReads(data: seq<byte>, offset: nat, size: nat, before: seq<byte>)
    requires |data| >= HEADER_SIZE && |before| >= HEADER_SIZE
    requires data[..8] == before[..8] && data[20..40] == before[20..40]
    requires data[8..20] == Le(offset, 8) + Le(size, 4)
    requires offset < TWO_32 * TWO_32 && size < TWO_32
    ensures HeaderOf(data) == HeaderOf(before).(listOffset := offset, listSize := size)
    ensures Magic(data) <==> Magic(before)
  {
    hide Number, Le, U32, U16, Magic;
    HeaderFront(data, before);
    HeaderBack(data, offset, size);
  }

  lemma PackedListReads(data: seq<byte>, before: seq<byte>, count: nat, packed: seq<byte>)
    requires data == before + Le(count, 4) + Le(|packed|, 4) + packed
    requires 0 < count <= MAX_FILES && 0 < |packed| <= MAX_LIST
    ensures PackedList(data, |before|) == Some((count, packed))
  {
    Sizes();
    hide Number, Le;
    assert data == before + Le(count, 4) + (Le(|packed|, 4) + packed);
    NumberWritten(before, count, 4, Le(|packed|, 4) + packed);
    SmallModulo(count, TWO_32);
    assert |before + Le(count, 4)| == |before| + 4;
    NumberWritten(before + Le(count, 4), |packed|, 4, packed);
    SmallModulo(|packed|, TWO_32);
    assert data[|before| + 8..|before| + 8 + |packed|] == packed;
  }

  /** An archive with something put at its end and twelve bytes of its header rewritten. */
  lemma PatchedTail(data: seq<byte>, extra: seq<byte>, part: seq<byte>)
    requires |data| >= HEADER_SIZE && |part| == 12
    ensures var out := Patched(data + extra, 8, part);
      && out[..8] == data[..8] && out[8..20] == part && out[20..40] == data[20..40]
      && out[20..|data|] == data[20..] && out == out[..|data|] + extra
  {
    var whole := data + extra;
    var out := Patched(whole, 8, part);
    assert forall i :: 20 <= i < |whole| ==> out[i] == whole[i];
    assert out[|data|..] == extra;
  }

  function ListingBlock(count: nat, packed: seq<byte>): seq<byte> {
    Le(count, 4) + Le(|packed|, 4) + packed
  }

  function HeaderPart(offset: nat, size: nat): (r: seq<byte>)
    ensures |r| == 12
  {
    Le(offset, 8) + Le(size, 4)
  }

  lemma WithListingIs(lz: Lz4, data: seq<byte>, listing: Listing)
    requires |data| >= HEADER_SIZE && WithListing(lz, data, listing).Some?
    ensures Nameable(listing.files)
    ensures var packed := lz.compress(ListBytes(listing.version, listing.files));
      && packed.Some? && packed.value != []
      && WithListing(lz, data, listing).value ==
           Patched(data + ListingBlock(|listing.files|, packed.value), 8,
                   HeaderPart(|data|, NewListSize(listing, |packed.value|)))
  {
    hide ListBytes, Le, Nameable;
    var packed := lz.compress(ListBytes(listing.version, listing.files)).value;
    assert data + Le(|listing.files|, 4) + Le(|packed|, 4) + packed == data + ListingBlock(|listing.files|, packed);
  }

  lemma ReadBack(lz: Lz4, out: seq<byte>, data: seq<byte>, size: nat, count: nat, packed: seq<byte>, list: seq<byte>)
    requires Magic(data) && Understood(HeaderOf(data).version)
    requires |data| < TWO_32 * TWO_32 && size < TWO_32 && 0 < count <= MAX_FILES && 0 < |packed| <= MAX_LIST
    requires |out| >= |data| && out == out[..|data|] + ListingBlock(count, packed)
    requires out[..8] == data[..8] && out[8..20] == HeaderPart(|data|, size) && out[20..40] == data[20..40]
    requires |list| == ListSize(HeaderOf(data).version, count) && lz.decompress(packed, |list|) == Some(list)
    ensures ReadListing(lz, out) == Some(HeaderOf(data).(
      listOffset := |data|, listSize := size, listCompressed := |packed|,
      files := FilesIn(HeaderOf(data).version, list)))
  {
    hide FilesIn, Number, Lit, PackedList, ListSize;
    HeaderReads(out, |data|, size, data);
    assert out == out[..|data|] + Le(count, 4) + Le(|packed|, 4) + packed;
    hide HeaderOf, Le;
    PackedListReads(out, out[..|data|], count, packed);
  }

  /** A listing that is written at the end of an archive is the one that is read. */
  lemma ListingReads(lz: Lz4, data: seq<byte>, listing: Listing)
    requires Magic(data) && Understood(listing.version) && HeaderOf(data).version == listing.version
    requires |data| < TWO_32 * TWO_32 && AllFit(listing.version, listing.files) && 0 < |listing.files| <= MAX_FILES
    requires Nameable(listing.files) && Inverts(lz, ListBytes(listing.version, listing.files))
    requires WithListing(lz, data, listing).Some?
    requires |lz.compress(ListBytes(listing.version, listing.files)).value| <= MAX_LIST
    ensures var out := WithListing(lz, data, listing).value;
      var packed := lz.compress(ListBytes(listing.version, listing.files)).value;
      && ReadListing(lz, out) == Some(HeaderOf(data).(
           listOffset := |data|, listSize := NewListSize(listing, |packed|), listCompressed := |packed|,
           files := AllStored(listing.version, listing.files)))
      && |out| == |data| + 8 + |packed|
      && out[..8] == data[..8] && out[20..|data|] == data[20..]
  {
    hide ListBytes, FilesIn, HeaderOf, AllStored, AllFit, HeaderPart, WithListing, ListingBlock, Nameable, Patched;
    var list := ListBytes(listing.version, listing.files);
    WithListingIs(lz, data, listing);
    var packed := lz.compress(list).value;
    ListReads(listing.version, listing.files);
    var size := NewListSize(listing, |packed|);
    var block := ListingBlock(|listing.files|, packed);
    assert |block| == 8 + |packed| by { BlockSize(|listing.files|, packed); }
    PatchedTail(data, block, HeaderPart(|data|, size));
    ReadBack(lz, Patched(data + block, 8, HeaderPart(|data|, size)), data, size, |listing.files|, packed, list);
  }

  lemma BlockSize(count: nat, packed: seq<byte>)
    ensures |ListingBlock(count, packed)| == 8 + |packed|
  {
  }

  // ---- contents ----

  /** The decoders of an entry's methods; each gives so many bytes or fails. */
  type Decoder = (nat, seq<byte>, nat) -> Option<seq<byte>>

  /** One entry's contents, decompressed if it was stored that way. */
  function ReadEntry(decode: Decoder, data: seq<byte>, f: PakFile): Option<seq<byte>> {
    if f.sizeOnDisk == 0 || f.sizeOnDisk > MAX_FILE || f.uncompressedSize > MAX_FILE then None
    else if f.offset + f.sizeOnDisk > |data| then None
    else
      var raw := data[f.offset..f.offset + f.sizeOnDisk];
      if f.flags % 16 == 0 then Some(raw)
      else if f.flags % 16 <= 3 then
        var out := decode(f.flags % 16, raw, f.uncompressedSize);
        if out.Some? && |out.value| == f.uncompressedSize then out else None
      else None
  }

  predicate IsEmpty(f: PakFile) {
    f.sizeOnDisk == 0 || (f.flags % 16 != 0 && f.uncompressedSize == 0)
  }
}
