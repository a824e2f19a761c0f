/** Reading and writing archives step by step (src/pak.cpp), and building a corrected copy (src/pak_fix.cpp). */
module PakFile {
  import opened BitStrings
  import opened Numbers
  import opened Pak
  import opened PakFix
  import opened Spelling
  import opened Wrappers

  lemma OneMoreEntry(version: nat, list: seq<byte>, at: nat)
    requires at + EntrySize(version) <= |list|
    ensures FilesIn(version, list[..at + EntrySize(version)]) ==
      FilesIn(version, list[..at]) + [EntryAt(version, list[at..at + EntrySize(version)])]
  {
    hide EntryAt;
    var n := at + EntrySize(version);
    assert list[..n][..at] == list[..at] && list[..n][at..] == list[at..n];
  }

  /** Every entry of an archive; nothing if this is not one, or is not understood. */
  method PakListing(lz: Lz4, data: seq<byte>) returns (listing: Option<Listing>)
    ensures listing == ReadListing(lz, data)
  {
    hide Number, Lit, EntryAt, FilesIn;
    if !Magic(data) {
      return None;
    }
    var h := HeaderOf(data);
    var size := EntrySize(h.version);
    if !Understood(h.version) {
      return None;
    }
    var count, compressed := U32(data, h.listOffset), U32(data, h.listOffset + 4);
    if count == 0 || count > MAX_FILES || compressed == 0 || compressed > MAX_LIST
       || h.listOffset + 8 + compressed > |data| {
      return None;
    }
    var packed := data[h.listOffset + 8..h.listOffset + 8 + compressed];
    var got := lz.decompress(packed, ListSize(h.version, count));
    if got == None || |got.value| != ListSize(h.version, count) {
      return None;
    }
    var files := TakeEntries(h.version, got.value, count);
    return Some(h.(listCompressed := compressed, files := files));
  }

  method TakeEntries(version: nat, list: seq<byte>, count: nat) returns (files: seq<PakFile>)
    requires |list| == ListSize(version, count)
    ensures files == FilesIn(version, list)
  {
    hide EntryAt;
    files := [];
    var at: nat := 0;
    var size := EntrySize(version);
    for i := 0 to count
      invariant at == ListSize(version, i) && at <= |list| && files == FilesIn(version, list[..at])
    {
      OneMoreEntry(version, list, at);
      files := files + [EntryAt(version, list[at..at + size])];
      at := at + size;
    }
    assert list[..at] == list;
  }

  /** The listing packed at the end of an archive, and the header pointed at it. */
  method PakWriteListing(lz: Lz4, data: seq<byte>, listing: Listing) returns (out: Option<seq<byte>>)
    requires |data| >= HEADER_SIZE
    ensures out == WithListing(lz, data, listing)
  {
    hide EntryBytes, Le;
    var list: seq<byte> := [];
    for i := 0 to |listing.files|
      invariant Nameable(listing.files[..i]) && list == ListBytes(listing.version, listing.files[..i])
    {
      if |listing.files[i].name| >= NAME_SIZE {
        return None;
      }
      assert listing.files[..i + 1] == listing.files[..i] + [listing.files[i]];
      assert listing.files[..i + 1][..i] == listing.files[..i];
      list := list + EntryBytes(listing.version, listing.files[i]);
    }
    assert listing.files[..|listing.files|] == listing.files;
    var packed := lz.compress(list);
    if packed == None || packed.value == [] {
      return None;
    }
    var bytes := data + Le(|listing.files|, 4);
    bytes := bytes + Le(|packed.value|, 4);
    bytes := bytes + packed.value;
    return Some(Patched(bytes, 8, Le(|data|, 8) + Le(NewListSize(listing, |packed.value|), 4)));
  }

  /** A corrected copy: the header or the whole archive, then each replacement on its boundary, then the new list. */
  method PakFixBuild(lz: Lz4, crc: Checksum, original: seq<byte>, listing: Listing, replaced: seq<Replacement>,
                     names: seq<Text>)
      returns (copy: Option<Copy>)
    requires |original| >= HEADER_SIZE && |names| == |listing.files|
    requires forall k :: 0 <= k < |replaced| ==> replaced[k].index < |listing.files|
    ensures copy == Built(lz, crc, original, listing, replaced, names)
  {
    hide Zeros, WithListing, Patched;
    var split := listing.version == 18;
    var files := listing.files;
    var out := original;
    if split {
      out := Patched(original[..HEADER_SIZE], 38, Le(2, 2));
      files := InPart(files, 1);
    }
    ghost var from := files;
    for k := 0 to |replaced|
      invariant (out, files) == Layout(crc, Base(original, split), from, replaced, k)
    {
      var i, data := replaced[k].index, replaced[k].data;
      var pad := (ALIGN - |out| % ALIGN) % ALIGN;
      out := out + Zeros(pad);
      var at := |out|;
      out := out + data;
      files := files[i := PakFile(files[i].name, at, |data|, 0, 0, 0, crc(data))];
    }
    files := Named(files, names);
    var main := PakWriteListing(lz, out, listing.(files := files));
    if main == None {
      return None;
    }
    return Some(Copy(main.value, if split then Some(original) else None));
  }
}
