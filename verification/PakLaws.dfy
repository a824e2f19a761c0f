/**
 The layout of Larian's archives, told from a file's raw bytes apart from the
 functions that read and write it (src/pak.cpp), and of a corrected copy
 (src/pak_fix.cpp).
*/
module PakLaws {
  import opened BitStrings
  import opened Numbers
  import opened Pak
  import opened PakFix
  import opened Spelling
  import opened Wrappers
  import Guid

  // ---- what is read ----

  /** A name of up to 256 bytes, which a zero ends if it is shorter. */
  predicate HoldsName(e: seq<byte>, name: Text) {
    && |name| <= 256 <= |e| && name == e[..|name|] && 0 !in name
    && (|name| < 256 ==> e[|name|] == 0)
  }

  /** An entry's record, of 272 bytes in version 18 and of 296 before. */
  predicate HoldsEntry(e: seq<byte>, version: nat, f: PakFile)
    requires |e| == if version == 18 then 272 else 296
  {
    && HoldsName(e, f.name)
    && if version == 18 then
         && f.offset == Four(e, 256) + 0x1_0000_0000 * Two(e, 260) && f.part == e[262] && f.flags == e[263]
         && f.sizeOnDisk == Four(e, 264) && f.uncompressedSize == Four(e, 268) && f.crc == 0
       else
         && f.offset == Eight(e, 256) && f.sizeOnDisk == Eight(e, 264) && f.uncompressedSize == Eight(e, 272)
         && f.part == Four(e, 280) && f.flags == e[284] && f.crc == Four(e, 288)
  }

  function Width(version: nat): nat {
    if version == 18 then 272 else 296
  }

  /** Where entry `k` begins in the list, and where one more would. */
  function Place(version: nat, k: nat): nat {
    if version == 18 then 272 * k else 296 * k
  }

  lemma NameIff(e: seq<byte>, name: Text)
    requires |e| >= 256
    ensures CString(e[..256]) == name <==> HoldsName(e, name)
  {
    var s := e[..256];
    if HoldsName(e, name) {
      forall i | 0 <= i < |name|
        ensures s[i] != 0
      {
        assert name[i] in name;
      }
      FirstUnique(s, 0, 0, |name|);
      assert s[..|name|] == e[..|name|];
    }
    var r := FirstFrom(s, 0, 0);
    assert s[..r] == e[..r];
    hide FirstFrom;
  }

  lemma ByteOfFour(e: seq<byte>, at: nat)
    requires at + 4 <= |e|
    ensures Four(e, at) % 256 == e[at]
  {
    var rest := e[at + 1] + 0x100 * Two(e, at + 2);
    assert Four(e, at) == e[at] + 256 * rest by {
      assert Four(e, at) == e[at] + 0x100 * e[at + 1] + 0x1_0000 * Two(e, at + 2);
    }
  }

  lemma EntryIff(e: seq<byte>, version: nat, f: PakFile)
    requires |e| == Width(version)
    ensures EntryAt(version, e) == f <==> HoldsEntry(e, version, f)
  {
    hide CString, Number, Two, Four, Eight, HoldsName;
    NameIff(e, f.name);
    if version == 18 {
      FourIs(e, 256);
      TwoIs(e, 260);
      OneIs(e, 262);
      OneIs(e, 263);
      FourIs(e, 264);
      FourIs(e, 268);
    } else {
      EightIs(e, 256);
      EightIs(e, 264);
      EightIs(e, 272);
      FourIs(e, 280);
      FourIs(e, 284);
      ByteOfFour(e, 284);
      FourIs(e, 288);
    }
  }

  /** Entry `k` of a list, in its place. */
  predicate EntryHeld(list: seq<byte>, version: nat, k: nat, f: PakFile) {
    var at := Place(version, k);
    at + Width(version) <= |list| && HoldsEntry(list[at..at + Width(version)], version, f)
  }

  /** A list of entries, one after the other. */
  predicate HoldsList(list: seq<byte>, version: nat, files: seq<PakFile>) {
    |list| == Place(version, |files|) && forall k :: 0 <= k < |files| ==> EntryHeld(list, version, k, files[k])
  }

  lemma PlaceMono(version: nat, j: nat, k: nat)
    requires j <= k
    ensures Place(version, j) <= Place(version, k) && Place(version, j) + Width(version) == Place(version, j + 1)
  {
  }

  lemma HeldBefore(list: seq<byte>, version: nat, n: nat, k: nat, f: PakFile)
    requires k < n && Place(version, n) <= |list|
    ensures EntryHeld(list[..Place(version, n)], version, k, f) <==> EntryHeld(list, version, k, f)
  {
    hide HoldsEntry;
    PlaceMono(version, k, k);
    PlaceMono(version, k + 1, n);
    var at := Place(version, k);
    assert list[..Place(version, n)][at..at + Width(version)] == list[at..at + Width(version)];
  }

  lemma HeldLast(list: seq<byte>, version: nat, k: nat, f: PakFile)
    requires |list| == Place(version, k + 1)
    ensures |list[Place(version, k)..]| == Width(version)
    ensures EntryHeld(list, version, k, f) <==> EntryAt(version, list[Place(version, k)..]) == f
  {
    hide HoldsEntry, EntryAt;
    PlaceMono(version, k, k);
    var at := Place(version, k);
    assert list[at..] == list[at..at + Width(version)];
    EntryIff(list[at..], version, f);
  }

  lemma HoldsSplits(list: seq<byte>, version: nat, files: seq<PakFile>)
    requires files != [] && |list| == Place(version, |files|)
    ensures var m := |files| - 1;
      && Place(version, m) + Width(version) == |list|
      && (HoldsList(list, version, files) <==>
            HoldsList(list[..Place(version, m)], version, files[..m]) && EntryHeld(list, version, m, files[m]))
  {
    hide EntryHeld, Place;
    var m := |files| - 1;
    PlaceMono(version, m, m);
    var front := list[..Place(version, m)];
    forall k: nat | k < m
      ensures EntryHeld(front, version, k, files[..m][k]) <==> EntryHeld(list, version, k, files[k])
    {
      HeldBefore(list, version, m, k, files[k]);
    }
    if HoldsList(front, version, files[..m]) {
      forall k: nat | k < m
        ensures EntryHeld(list, version, k, files[k])
      {
        assert EntryHeld(front, version, k, files[..m][k]);
      }
    }
  }

  lemma Many(version: nat, list: seq<byte>, count: nat)
    requires |list| == Place(version, count)
    ensures |FilesIn(version, list)| == count
  {
    HowManyFiles(version, list, count);
  }

  lemma SameSnoc(a: seq<PakFile>, x: PakFile, files: seq<PakFile>)
    requires files != [] && |a| == |files| - 1
    ensures a + [x] == files <==> a == files[..|files| - 1] && x == files[|files| - 1]
  {
    var s := a + [x];
    assert s[..|a|] == a && s[|a|] == x;
    assert files == files[..|a|] + [files[|a|]];
  }

  lemma NoneHeld(list: seq<byte>, version: nat, files: seq<PakFile>)
    requires |list| == Place(version, 0) && files == []
    ensures FilesIn(version, list) == files && HoldsList(list, version, files)
  {
  }

  lemma {:induction false} ListIff(list: seq<byte>, version: nat, count: nat, files: seq<PakFile>)
    requires |list| == Place(version, count) && |files| == count
    ensures FilesIn(version, list) == files <==> HoldsList(list, version, files)
    decreases count
  {
    hide EntryAt, EntryHeld, Place, HoldsList, FilesIn;
    if count == 0 {
      NoneHeld(list, version, files);
    } else {
      var n := Place(version, count - 1);
      var init, last := files[..count - 1], files[count - 1];
      HoldsSplits(list, version, files);
      ListIff(list[..n], version, count - 1, init);
      HeldLast(list, version, count - 1, last);
      FilesSnoc(version, list, n);
      Many(version, list[..n], count - 1);
      SameSnoc(FilesIn(version, list[..n]), EntryAt(version, list[n..]), files);
    }
  }

  lemma FilesSnoc(version: nat, list: seq<byte>, n: nat)
    requires n + Width(version) == |list|
    ensures FilesIn(version, list) == FilesIn(version, list[..n]) + [EntryAt(version, list[n..])]
  {
    hide EntryAt;
  }

  /**
   An archive of version 15, 16 or 18: where its list is told to be, how many
   entries and packed bytes it has, and the entries that those unpack to.
  */
  ghost predicate IsArchive(lz: Lz4, data: seq<byte>, l: Listing) {
    && |data| >= 40 && data[0] == 0x4c && data[1] == 0x53 && data[2] == 0x50 && data[3] == 0x4b
    && l.version == Four(data, 4) && l.version in {15, 16, 18}
    && l.listOffset == Eight(data, 8) && l.listSize == Four(data, 16) && l.flags == data[20]
    && l.parts == (if l.version == 18 then Two(data, 38) else 1)
    && var at := l.listOffset;
    && at + 8 <= |data| && Four(data, at) == |l.files| && 1 <= |l.files| <= 4_194_304
    && Four(data, at + 4) == l.listCompressed && 1 <= l.listCompressed <= 268_435_456
    && at + 8 + l.listCompressed <= |data|
    && var list := lz.decompress(data[at + 8..at + 8 + l.listCompressed], Place(l.version, |l.files|));
       list.Some? && HoldsList(list.value, l.version, l.files)
  }

  lemma MagicIs(data: seq<byte>)
    requires |data| >= 40
    ensures Magic(data) <==> data[0] == 0x4c && data[1] == 0x53 && data[2] == 0x50 && data[3] == 0x4b
  {
    var l := Lit("LSPK");
    assert l[0] == 0x4c && l[1] == 0x53 && l[2] == 0x50 && l[3] == 0x4b;
    assert data[..4] == [data[0], data[1], data[2], data[3]];
    assert l == [l[0], l[1], l[2], l[3]];
  }

  lemma HeaderIs(data: seq<byte>)
    requires |data| >= 40
    ensures var h := HeaderOf(data);
      && h.version == Four(data, 4) && h.listOffset == Eight(data, 8) && h.listSize == Four(data, 16)
      && h.flags == data[20] && h.parts == (if h.version == 18 then Two(data, 38) else 1)
      && h.listCompressed == 0 && h.files == []
  {
    hide Number, Two, Four, Eight;
    FourIs(data, 4);
    EightIs(data, 8);
    FourIs(data, 16);
    TwoIs(data, 38);
  }

  lemma PackedIff(data: seq<byte>, at: nat, count: nat, packed: seq<byte>)
    ensures PackedList(data, at) == Some((count, packed)) <==>
      && at + 8 <= |data| && Four(data, at) == count && 1 <= count <= 4_194_304
      && Four(data, at + 4) == |packed| && 1 <= |packed| <= 268_435_456
      && at + 8 + |packed| <= |data| && packed == data[at + 8..at + 8 + |packed|]
  {
    hide Number, Four;
    if at + 8 <= |data| {
      FourIs(data, at);
      FourIs(data, at + 4);
    } else {
      PastEnd(data, at + 4);
    }
  }

  lemma PastEnd(data: seq<byte>, at: nat)
    requires at + 4 > |data|
    ensures U32(data, at) == 0
  {
  }

  /** An archive is read as a listing if and only if it is the archive of that listing. */
  lemma ListingIff(lz: Lz4, data: seq<byte>, l: Listing)
    ensures ReadListing(lz, data) == Some(l) <==> IsArchive(lz, data, l)
  {
    hide Lit, Four, Eight, Two, PackedList, HeaderOf, FilesIn, HoldsList;
    if |data| >= 40 {
      MagicIs(data);
      HeaderIs(data);
      var h := HeaderOf(data);
      var packed := PackedList(data, h.listOffset);
      if packed.Some? {
        PackedIff(data, h.listOffset, packed.value.0, packed.value.1);
        var list := lz.decompress(packed.value.1, ListSize(h.version, packed.value.0));
        if list.Some? && |list.value| == ListSize(h.version, packed.value.0) {
          HowManyFiles(h.version, list.value, packed.value.0);
          if |l.files| == packed.value.0 {
            ListIff(list.value, h.version, packed.value.0, l.files);
          }
        }
      }
      if IsArchive(lz, data, l) {
        PackedIff(data, h.listOffset, |l.files|, data[h.listOffset + 8..h.listOffset + 8 + l.listCompressed]);
        ListLength(lz, data, l);
      }
    }
  }

  lemma ListLength(lz: Lz4, data: seq<byte>, l: Listing)
    requires IsArchive(lz, data, l)
    ensures var at := l.listOffset;
      |lz.decompress(data[at + 8..at + 8 + l.listCompressed], Place(l.version, |l.files|)).value|
      == Place(l.version, |l.files|)
  {
    hide Four, Eight, Two;
  }

  /** An entry's contents: the bytes at its place, as they are by method 0 and decoded by methods 1 to 3. */
  lemma EntryLaw(decode: Decoder, data: seq<byte>, f: PakFile, bytes: seq<byte>)
    ensures ReadEntry(decode, data, f) == Some(bytes) <==>
      && 1 <= f.sizeOnDisk <= 268_435_456 && f.uncompressedSize <= 268_435_456
      && f.offset + f.sizeOnDisk <= |data|
      && var raw := data[f.offset..f.offset + f.sizeOnDisk];
         if f.flags % 16 == 0 then bytes == raw
         else f.flags % 16 in {1, 2, 3} && |bytes| == f.uncompressedSize
              && decode(f.flags % 16, raw, f.uncompressedSize) == Some(bytes)
  {
  }

  // ---- what is written ----

  lemma LowerBytes(v: nat, n: nat, b: seq<byte>, at: nat)
    requires n in {2, 4, 8} && at + n <= |b| && b[at..at + n] == Le(v, n) && v < Pow2(8 * n)
    ensures n == 2 ==> Two(b, at) == v
    ensures n == 4 ==> Four(b, at) == v
    ensures n == 8 ==> Eight(b, at) == v
  {
    hide Two, Four, Eight, Le, Pow2;
    SmallModulo(v, Pow2(8 * n));
    assert b == b[..at] + Le(v, n) + b[at + n..];
    NumberWritten(b[..at], v, n, b[at + n..]);
    if n == 2 {
      TwoIs(b, at);
    } else if n == 4 {
      FourIs(b, at);
    } else {
      EightIs(b, at);
    }
  }

  /** An entry is written as the record that holds it, its name and the rest of the record filled with zeros. */
  lemma EntryWritten(version: nat, f: PakFile)
    requires Fits(version, f)
    ensures var e := EntryBytes(version, f);
      && |e| == Width(version) && HoldsEntry(e, version, Stored(version, f))
      && (forall i :: |f.name| <= i < 256 ==> e[i] == 0) && (version != 18 ==> Four(e, 292) == 0)
  {
    EntryReads(version, f);
    EntryIff(EntryBytes(version, f), version, Stored(version, f));
    PaddingIsZero(version, f);
    if version != 18 {
      UnusedIsZero(version, f);
    }
  }

  lemma PaddingIsZero(version: nat, f: PakFile)
    requires |f.name| < 256
    ensures |EntryBytes(version, f)| == Width(version)
    ensures forall i :: |f.name| <= i < 256 ==> EntryBytes(version, f)[i] == 0
  {
    EntryLength(version, f);
    hide Packed, EntryFields;
  }

  lemma UnusedIsZero(version: nat, f: PakFile)
    requires |f.name| < 256 && version != 18
    ensures |EntryBytes(version, f)| == 296 && Four(EntryBytes(version, f), 292) == 0
  {
    EntryLength(version, f);
    Starts15(version, f);
    MoreSizes();
    hide Pow2, Four, EntryBytes, FieldStart;
    EntryFieldReads(version, f, 6);
    FourIs(EntryBytes(version, f), 292);
  }

  /**
   A list that is written goes behind the archive: how many entries, how many
   packed bytes, and those. The header is told where that is, and of a size
   that keeps its distance to the packed one; no other byte changes.
  */
  lemma ListWritten(lz: Lz4, data: seq<byte>, l: Listing, packed: seq<byte>)
    requires 40 <= |data| < 0x1_0000_0000_0000_0000 && |l.files| < 0x1_0000_0000 && |packed| < 0x1_0000_0000
    requires l.listSize < 0x1_0000_0000 && l.listCompressed < 0x1_0000_0000
    requires Nameable(l.files) && lz.compress(ListBytes(l.version, l.files)) == Some(packed)
    ensures packed == [] <==> WithListing(lz, data, l) == None
    ensures packed != [] ==>
      var out := WithListing(lz, data, l).value;
      && |out| == |data| + 8 + |packed| && out[|data| + 8..] == packed
      && Four(out, |data|) == |l.files| && Four(out, |data| + 4) == |packed|
      && Eight(out, 8) == |data|
      && (Four(out, 16) + l.listCompressed) % 0x1_0000_0000 == (|packed| + l.listSize) % 0x1_0000_0000
      && forall i :: 0 <= i < |data| && !(8 <= i < 20) ==> out[i] == data[i]
  {
    hide ListBytes, Le, Four, Eight;
    if packed != [] {
      var out := WithListing(lz, data, l).value;
      var size := NewListSize(l, |packed|);
      MoreSizes();
      ListParts(lz, data, l, packed);
      LowerBytes(|l.files|, 4, out, |data|);
      LowerBytes(|packed|, 4, out, |data| + 4);
      LowerBytes(|data|, 8, out, 8);
      LowerBytes(size, 4, out, 16);
      SizeKeepsDistance(l, |packed|);
    }
  }

  lemma SizeKeepsDistance(l: Listing, packed: nat)
    requires l.listSize < 0x1_0000_0000 && l.listCompressed < 0x1_0000_0000 && packed < 0x1_0000_0000
    ensures NewListSize(l, packed) < 0x1_0000_0000
    ensures (NewListSize(l, packed) + l.listCompressed) % 0x1_0000_0000 == (packed + l.listSize) % 0x1_0000_0000
  {
    SmallModulo(l.listCompressed, 0x1_0000_0000);
    ModuloAdds(packed + 0x1_0000_0000 + l.listSize - l.listCompressed, l.listCompressed);
    ModuloAdds(packed + l.listSize, 0x1_0000_0000);
  }

  lemma ListParts(lz: Lz4, data: seq<byte>, l: Listing, packed: seq<byte>)
    requires 40 <= |data| && Nameable(l.files) && packed != []
    requires lz.compress(ListBytes(l.version, l.files)) == Some(packed)
    ensures WithListing(lz, data, l).Some?
    ensures var out, n := WithListing(lz, data, l).value, |data|;
      && |out| == n + 8 + |packed| && out[n..n + 4] == Le(|l.files|, 4) && out[n + 4..n + 8] == Le(|packed|, 4)
      && out[n + 8..] == packed && out[8..16] == Le(n, 8) && out[16..20] == Le(NewListSize(l, |packed|), 4)
      && forall i :: 0 <= i < n && !(8 <= i < 20) ==> out[i] == data[i]
  {
    hide ListBytes, Le, NewListSize, Nameable, Patched;
    var out, n := WithListing(lz, data, l).value, |data|;
    WithListingIs(lz, data, l);
    var part := HeaderPart(n, NewListSize(l, |packed|));
    PatchedTail(data, ListingBlock(|l.files|, packed), part);
    hide WithListing;
    BlockAt(out, n, |l.files|, packed);
    assert out[8..16] == out[8..20][..8] && out[16..20] == out[8..20][8..];
    forall i | 0 <= i < n && !(8 <= i < 20)
      ensures out[i] == data[i]
    {
      if i < 8 {
        assert out[..8][i] == data[..8][i];
      } else {
        assert out[20..n][i - 20] == data[20..][i - 20];
      }
    }
  }

  lemma BlockAt(out: seq<byte>, n: nat, count: nat, packed: seq<byte>)
    requires n <= |out| && out == out[..n] + ListingBlock(count, packed)
    ensures |out| == n + 8 + |packed| && out[n..n + 4] == Le(count, 4) && out[n + 4..n + 8] == Le(|packed|, 4)
    ensures out[n + 8..] == packed
  {
    hide Le;
    var block := ListingBlock(count, packed);
    assert out[n..] == block;
    assert out[n..n + 4] == block[..4] && out[n + 4..n + 8] == block[4..8] && out[n + 8..] == block[8..];
  }

  // ---- the corrected copy ----

  /**
   A replacement goes on the next boundary of 64 bytes, zeros before it, and
   its entry tells of that place, its length, no compression, the first part
   and its checksum; all other entries stay.
  */
  lemma PlacedLaw(crc: Checksum, base: seq<byte>, files: seq<PakFile>, replaced: seq<Replacement>, n: nat, i: nat)
    requires n < |replaced| && replaced[n].index < |files| && i < |files|
    ensures var (out, done) := Layout(crc, base, files, replaced, n);
      var (out', done') := Layout(crc, base, files, replaced, n + 1);
      var p := replaced[n]; var f := done'[p.index];
      && f.offset % 64 == 0 && |out| <= f.offset < |out| + 64 && |out'| == f.offset + |p.data|
      && out <= out' && out'[f.offset..] == p.data && (forall k :: |out| <= k < f.offset ==> out'[k] == 0)
      && f == PakFile(done[p.index].name, f.offset, |p.data|, 0, 0, 0, crc(p.data))
      && (i != p.index ==> done'[i] == done[i])
  {
    hide Padding;
    var (out, done) := Layout(crc, base, files, replaced, n);
    var p := replaced[n];
    var at := |out| + Padding(|out|);
    PaddingLaw(|out|);
    assert (out + Zeros(Padding(|out|)) + p.data)[at..] == p.data;
  }

  lemma PaddingLaw(at: nat)
    ensures Padding(at) < 64 && (at + Padding(at)) % 64 == 0
  {
  }

  /**
   A copy of an archive of version 18 is its header, told to be of two parts,
   with the archive itself as the second; any other copy is the whole archive.
   Only where the list is differs in the header.
  */
  lemma CopyLaw(lz: Lz4, crc: Checksum, original: seq<byte>, listing: Listing, replaced: seq<Replacement>,
                names: seq<Text>)
    requires |original| >= 40 && |names| == |listing.files|
    requires Built(lz, crc, original, listing, replaced, names).Some?
    ensures var c := Built(lz, crc, original, listing, replaced, names).value;
      && c.second == (if listing.version == 18 then Some(original) else None)
      && |c.main| >= (if listing.version == 18 then 40 else |original|)
      && forall i :: 0 <= i < (if listing.version == 18 then 40 else |original|) && !(8 <= i < 20) ==>
           c.main[i] == if listing.version == 18 && i == 38 then 2 else if listing.version == 18 && i == 39 then 0
                        else original[i]
  {
    hide Layout, WithListing, Le;
    var split := listing.version == 18;
    var base := Base(original, split);
    var files := if split then InPart(listing.files, 1) else listing.files;
    BaseLaw(original);
    var (out, done) := Layout(crc, base, files, replaced, |replaced|);
    var l := listing.(files := Named(done, names));
    KeepsFront(lz, out, l);
    hide Base, Built;
    assert forall i :: 0 <= i < |base| ==> out[i] == base[i];
  }

  lemma BaseLaw(original: seq<byte>)
    requires |original| >= 40
    ensures |Base(original, true)| == 40 && Base(original, false) == original
    ensures forall i :: 0 <= i < 40 ==>
      Base(original, true)[i] == if i == 38 then 2 else if i == 39 then 0 else original[i]
  {
    TwoBytes();
    hide Le;
  }

  lemma TwoBytes()
    ensures Le(2, 2) == [2, 0]
  {
    Pow2Values();
    hide Pow2;
    assert Guid.WordBytes(2, 2) == [2] + Guid.WordBytes(0, 1) && Guid.WordBytes(0, 1) == [0] + Guid.WordBytes(0, 0);
  }

  lemma KeepsFront(lz: Lz4, data: seq<byte>, l: Listing)
    requires |data| >= 40 && WithListing(lz, data, l).Some?
    ensures var out := WithListing(lz, data, l).value;
      |out| >= |data| && forall i :: 0 <= i < |data| && !(8 <= i < 20) ==> out[i] == data[i]
  {
    hide ListBytes, Le, NewListSize;
  }
}
