/**
 Corrected copies of archives (pak_fix_build in src/pak_fix.cpp): what is
 appended and where, and that reading the copy gives the new contents of what
 was replaced and the old ones of everything else.
*/
module PakFix {
  import opened BitStrings
  import opened Numbers
  import opened Pak
  import opened Spelling
  import opened Wrappers

  const ALIGN := 64

  /** An entry, by its place in the list, and the bytes it is to hold. */
  datatype Replacement = Replacement(index: nat, data: seq<byte>)

  type Checksum = seq<byte> -> nat

  function Padding(at: nat): (r: nat)
    ensures r < ALIGN && (at + r) % ALIGN == 0
  {
    assert at == ALIGN * (at / ALIGN) + at % ALIGN;
    if at % ALIGN == 0 then 0
    else
      assert at + (ALIGN - at % ALIGN) == ALIGN * (at / ALIGN + 1);
      ALIGN - at % ALIGN
  }

  function Placed(crc: Checksum, f: PakFile, at: nat, data: seq<byte>): PakFile {
    PakFile(f.name, at, |data|, 0, 0, 0, crc(data))
  }

  /** The archive and its entries with the first `n` replacements appended, each on a boundary of 64 bytes. */
  function Layout(crc: Checksum, base: seq<byte>, files: seq<PakFile>, replaced: seq<Replacement>, n: nat)
      : (r: (seq<byte>, seq<PakFile>))
    requires n <= |replaced|
    ensures |r.1| == |files| && base <= r.0
  {
    if n == 0 then (base, files)
    else
      var (out, done) := Layout(crc, base, files, replaced, n - 1);
      var p := replaced[n - 1];
      var at := |out| + Padding(|out|);
      (out + Zeros(Padding(|out|)) + p.data,
       if p.index < |done| then done[p.index := Placed(crc, done[p.index], at, p.data)] else done)
  }

  predicate IndicesDistinct(replaced: seq<Replacement>) {
    forall i, j :: 0 <= i < j < |replaced| ==> replaced[i].index != replaced[j].index
  }

  predicate Replaces(replaced: seq<Replacement>, n: nat, i: nat) {
    exists k :: 0 <= k < n && k < |replaced| && replaced[k].index == i
  }

  // ---- where the replacements are ----

  /** A replacement is on a boundary after the base, and its bytes are there. */
  predicate Lies(base: seq<byte>, out: seq<byte>, f: PakFile, p: Replacement) {
    && f.offset % ALIGN == 0 && |base| <= f.offset && f.offset + |p.data| <= |out|
    && out[f.offset..f.offset + |p.data|] == p.data
    && f.sizeOnDisk == |p.data| && f.uncompressedSize == 0 && f.flags == 0 && f.part == 0
  }

  lemma LiesStill(base: seq<byte>, out: seq<byte>, more: seq<byte>, f: PakFile, p: Replacement)
    requires Lies(base, out, f, p)
    ensures Lies(base, out + more, f, p)
  {
    assert (out + more)[f.offset..f.offset + |p.data|] == out[f.offset..f.offset + |p.data|];
  }

  lemma {:induction false} LayoutLies(crc: Checksum, base: seq<byte>, files: seq<PakFile>, replaced: seq<Replacement>,
                                      n: nat, k: nat)
    requires k < n <= |replaced| && IndicesDistinct(replaced) && replaced[k].index < |files|
    ensures var (out, done) := Layout(crc, base, files, replaced, n);
      Lies(base, out, done[replaced[k].index], replaced[k])
  {
    hide Lies, Placed, Padding, Zeros;
    var (out, done) := Layout(crc, base, files, replaced, n - 1);
    var p := replaced[n - 1];
    var at := |out| + Padding(|out|);
    var more := Zeros(Padding(|out|)) + p.data;
    assert out + Zeros(Padding(|out|)) + p.data == out + more;
    if k == n - 1 {
      PlacedLies(crc, base, out, done[p.index], p);
    } else {
      LayoutLies(crc, base, files, replaced, n - 1, k);
      LiesStill(base, out, more, done[replaced[k].index], replaced[k]);
    }
  }

  lemma PlacedLies(crc: Checksum, base: seq<byte>, out: seq<byte>, f: PakFile, p: Replacement)
    requires base <= out
    ensures var at := |out| + Padding(|out|);
      Lies(base, out + (Zeros(Padding(|out|)) + p.data), Placed(crc, f, at, p.data), p)
  {
    var at := |out| + Padding(|out|);
    var whole := out + (Zeros(Padding(|out|)) + p.data);
    assert whole == (out + Zeros(Padding(|out|))) + p.data;
    assert whole[at..at + |p.data|] == p.data;
  }

  /** Replacements lie one after the other. */
  lemma {:induction false} LayoutInOrder(crc: Checksum, base: seq<byte>, files: seq<PakFile>,
                                         replaced: seq<Replacement>,
                                         n: nat, j: nat, k: nat)
    requires j < k < n <= |replaced| && IndicesDistinct(replaced)
    requires forall i :: 0 <= i < |replaced| ==> replaced[i].index < |files|
    ensures var done := Layout(crc, base, files, replaced, n).1;
      done[replaced[j].index].offset + |replaced[j].data| <= done[replaced[k].index].offset
  {
    hide Padding, Zeros, Lies;
    if k < n - 1 {
      LayoutInOrder(crc, base, files, replaced, n - 1, j, k);
    } else {
      LayoutLies(crc, base, files, replaced, n - 1, j);
      var (out, done) := Layout(crc, base, files, replaced, n - 1);
      LiesEnd(base, out, done[replaced[j].index], replaced[j]);
    }
  }

  lemma LiesEnd(base: seq<byte>, out: seq<byte>, f: PakFile, p: Replacement)
    requires Lies(base, out, f, p)
    ensures f.offset + |p.data| <= |out|
  {
  }

  /** What is not replaced keeps its entry, and every entry keeps its name. */
  lemma {:induction false} LayoutKeeps(crc: Checksum, base: seq<byte>, files: seq<PakFile>, replaced: seq<Replacement>,
                                       n: nat, i: nat)
    requires n <= |replaced| && i < |files|
    ensures var done := Layout(crc, base, files, replaced, n).1;
      (!Replaces(replaced, n, i) ==> done[i] == files[i]) && done[i].name == files[i].name
  {
    hide Padding, Zeros;
    if n > 0 {
      LayoutKeeps(crc, base, files, replaced, n - 1, i);
      if !Replaces(replaced, n, i) {
        assert !Replaces(replaced, n - 1, i);
      }
    }
  }

  // ---- the copy ----

  /** A corrected copy: its own bytes, and in two parts the original beside it. */
  datatype Copy = Copy(main: seq<byte>, second: Option<seq<byte>>)

  function InPart(files: seq<PakFile>, part: nat): (r: seq<PakFile>)
    ensures |r| == |files| && forall i :: 0 <= i < |files| ==> r[i] == files[i].(part := part)
  {
    seq(|files|, i requires 0 <= i < |files| => files[i].(part := part))
  }

  function Named(files: seq<PakFile>, names: seq<Text>): (r: seq<PakFile>)
    requires |names| == |files|
    ensures |r| == |files| && forall i :: 0 <= i < |files| ==> r[i] == files[i].(name := names[i])
  {
    seq(|files|, i requires 0 <= i < |files| => files[i].(name := names[i]))
  }

  /** What is copied before anything is appended: of version 18 the header alone, which tells of two parts. */
  function Base(original: seq<byte>, split: bool): (r: seq<byte>)
    requires |original| >= HEADER_SIZE
    ensures |r| >= HEADER_SIZE
  {
    if split then Patched(original[..HEADER_SIZE], 38, Le(2, 2)) else original
  }

  function Built(lz: Lz4, crc: Checksum, original: seq<byte>, listing: Listing, replaced: seq<Replacement>,
                 names: seq<Text>): Option<Copy>
    requires |original| >= HEADER_SIZE && |names| == |listing.files|
  {
    var split := listing.version == 18;
    var files := if split then InPart(listing.files, 1) else listing.files;
    var (out, done) := Layout(crc, Base(original, split), files, replaced, |replaced|);
    var main := WithListing(lz, out, listing.(files := Named(done, names)));
    if main == None then None else Some(Copy(main.value, if split then Some(original) else None))
  }

  /** An entry's contents in a copy, read from the part it is in. */
  function CopyEntry(decode: Decoder, c: Copy, f: PakFile): Option<seq<byte>> {
    if f.part == 0 then ReadEntry(decode, c.main, f)
    else if f.part == 1 && c.second.Some? then ReadEntry(decode, c.second.value, f)
    else None
  }

  // ---- what building requires and gives ----

  /** An archive the fixer reads: one part, and names that fit. */
  predicate Fixable(lz: Lz4, original: seq<byte>, listing: Listing) {
    && ReadListing(lz, original) == Some(listing)
    && listing.parts == 1 && forall i :: 0 <= i < |listing.files| ==> listing.files[i].part == 0
  }

  predicate NamesFit(names: seq<Text>) {
    forall i :: 0 <= i < |names| ==> |names[i]| < NAME_SIZE && 0 !in names[i]
  }

  predicate ReplacementsFit(files: seq<PakFile>, replaced: seq<Replacement>) {
    && IndicesDistinct(replaced)
    && forall k :: 0 <= k < |replaced| ==> replaced[k].index < |files| && 0 < |replaced[k].data| <= MAX_FILE
  }

  function Limit(version: nat): nat {
    if version == 18 then TWO_16 * TWO_32 else TWO_32 * TWO_32
  }

  /** Everything but an entry's name fits the fields it was read from. */
  predicate FieldsFit(version: nat, f: PakFile) {
    && f.flags < 256
    && if version == 18 then
         f.offset < TWO_16 * TWO_32 && f.sizeOnDisk < TWO_32 && f.uncompressedSize < TWO_32 && f.part < 256
       else
         && f.offset < TWO_32 * TWO_32 && f.sizeOnDisk < TWO_32 * TWO_32 && f.uncompressedSize < TWO_32 * TWO_32
         && f.part < TWO_32 && f.crc < TWO_32
  }

  lemma EntryFieldsFit(version: nat, e: seq<byte>)
    requires |e| == EntrySize(version)
    ensures FieldsFit(version, EntryAt(version, e))
  {
    MoreSizes();
    hide Number, CString;
  }

  lemma {:induction false} ReadFieldsFit(version: nat, list: seq<byte>)
    ensures forall i :: 0 <= i < |FilesIn(version, list)| ==> FieldsFit(version, FilesIn(version, list)[i])
    decreases |list|
  {
    hide EntryAt, FieldsFit;
    if |list| >= EntrySize(version) {
      var n := |list| - EntrySize(version);
      ReadFieldsFit(version, list[..n]);
      EntryFieldsFit(version, list[n..]);
    }
  }

  lemma ListingFits(lz: Lz4, data: seq<byte>, listing: Listing)
    requires ReadListing(lz, data) == Some(listing)
    ensures Magic(data) && HeaderOf(data).version == listing.version && Understood(listing.version)
    ensures 0 < |listing.files| <= MAX_FILES
    ensures forall i :: 0 <= i < |listing.files| ==> FieldsFit(listing.version, listing.files[i])
  {
    var h := HeaderOf(data);
    var packed := PackedList(data, h.listOffset);
    var list := lz.decompress(packed.value.1, ListSize(h.version, packed.value.0)).value;
    ReadFieldsFit(h.version, list);
    HowManyFiles(h.version, list, packed.value.0);
    hide FieldsFit, FilesIn, Lit;
  }

  // ---- the copy's list ----

  predicate AllFieldsFit(version: nat, files: seq<PakFile>) {
    forall i :: 0 <= i < |files| ==> FieldsFit(version, files[i])
  }

  lemma {:induction false} LayoutFits(crc: Checksum, base: seq<byte>, files: seq<PakFile>, replaced: seq<Replacement>,
                                      n: nat, version: nat)
    requires n <= |replaced| && AllFieldsFit(version, files) && ReplacementsFit(files, replaced)
    requires forall data :: crc(data) < TWO_32
    requires |Layout(crc, base, files, replaced, n).0| < Limit(version)
    ensures AllFieldsFit(version, Layout(crc, base, files, replaced, n).1)
  {
    hide Padding, Zeros;
    if n > 0 {
      LayoutFits(crc, base, files, replaced, n - 1, version);
    }
  }

  /** What is known of an archive from its first forty bytes. */
  lemma HeaderTells(a: seq<byte>, b: seq<byte>)
    requires |a| >= HEADER_SIZE && |b| >= HEADER_SIZE && a[..HEADER_SIZE] == b[..HEADER_SIZE]
    ensures (Magic(a) <==> Magic(b)) && HeaderOf(a) == HeaderOf(b)
  {
    hide Number, Lit;
    var h := a[..HEADER_SIZE];
    assert a[4..8] == h[4..8] == b[4..8] && a[8..16] == h[8..16] == b[8..16] && a[16..20] == h[16..20] == b[16..20];
    assert a[38..40] == h[38..40] == b[38..40] && a[..4] == h[..4] == b[..4] && a[20] == h[20] == b[20];
    SameNumber(a, b, 4, 4);
    SameNumber(a, b, 8, 8);
    SameNumber(a, b, 16, 4);
    SameNumber(a, b, 38, 2);
  }

  lemma BaseTells(original: seq<byte>, split: bool)
    requires Magic(original) && (split <==> HeaderOf(original).version == 18)
    ensures var base := Base(original, split);
      Magic(base) && HeaderOf(base) == HeaderOf(original).(parts := if split then 2 else HeaderOf(original).parts)
  {
    if split {
      hide Number, Lit;
      var head := original[..HEADER_SIZE];
      var base := Base(original, split);
      HeaderTells(original, head);
      PatchedParts(head, 38, Le(2, 2));
      assert base[4..8] == head[4..8] && base[8..16] == head[8..16] && base[16..20] == head[16..20] &&
        base[20] == head[20];
      assert base[..4] == head[..4];
      SameNumber(base, head, 4, 4);
      SameNumber(base, head, 8, 8);
      SameNumber(base, head, 16, 4);
      assert base == base[..38] + Le(2, 2) + [];
      NumberWritten(base[..38], 2, 2, []);
      Sizes();
      SmallModulo(2, TWO_16);
    }
  }

  /** What building needs besides a fixable archive: room, and a packed list that reading allows. */
  ghost predicate Room(lz: Lz4, crc: Checksum, original: seq<byte>, listing: Listing, replaced: seq<Replacement>,
                       names: seq<Text>)
    requires |original| >= HEADER_SIZE && |names| == |listing.files|
  {
    var (out, done) := Appended(crc, original, listing, replaced);
    var files := Named(done, names);
    && |out| < Limit(listing.version) && Nameable(files) && (forall data :: crc(data) < TWO_32)
    && Inverts(lz, ListBytes(listing.version, files))
    && (lz.compress(ListBytes(listing.version, files)).Some? ==>
          |lz.compress(ListBytes(listing.version, files)).value| <= MAX_LIST)
  }

  /** The copy before its list, and its entries but for their new names. */
  function Appended(crc: Checksum, original: seq<byte>, listing: Listing, replaced: seq<Replacement>)
      : (r: (seq<byte>, seq<PakFile>))
    requires |original| >= HEADER_SIZE
    ensures |r.1| == |listing.files|
  {
    var split := listing.version == 18;
    Layout(crc, Base(original, split), if split then InPart(listing.files, 1) else listing.files, replaced, |replaced|)
  }

  lemma AppendedFits(lz: Lz4, crc: Checksum, original: seq<byte>, listing: Listing, replaced: seq<Replacement>,
                     names: seq<Text>)
    requires |original| >= HEADER_SIZE && |names| == |listing.files|
    requires Fixable(lz, original, listing) && NamesFit(names) && ReplacementsFit(listing.files, replaced)
    requires Room(lz, crc, original, listing, replaced, names)
    ensures AllFit(listing.version, Named(Appended(crc, original, listing, replaced).1, names))
  {
    hide ReadListing, Inverts, ListBytes, Layout, Base, FieldsFit, Fits, HeaderOf, Magic, NamesFit, ReplacementsFit;
    ListingFits(lz, original, listing);
    var split := listing.version == 18;
    var files := if split then InPart(listing.files, 1) else listing.files;
    assert AllFieldsFit(listing.version, files) by {
      PartsFit(listing.version, listing.files);
    }
    assert ReplacementsFit(files, replaced) by { SameReplacements(listing.files, files, replaced); }
    LayoutFits(crc, Base(original, split), files, replaced, |replaced|, listing.version);
    NamedFit(listing.version, Appended(crc, original, listing, replaced).1, names);
  }

  lemma PartsFit(version: nat, files: seq<PakFile>)
    requires AllFieldsFit(version, files)
    ensures AllFieldsFit(version, InPart(files, 1))
  {
  }

  lemma SameReplacements(a: seq<PakFile>, b: seq<PakFile>, replaced: seq<Replacement>)
    requires ReplacementsFit(a, replaced) && |a| == |b|
    ensures ReplacementsFit(b, replaced)
  {
  }

  lemma NamedFit(version: nat, files: seq<PakFile>, names: seq<Text>)
    requires AllFieldsFit(version, files) && NamesFit(names) && |names| == |files|
    ensures AllFit(version, Named(files, names))
  {
  }

  lemma AppendedTells(lz: Lz4, crc: Checksum, original: seq<byte>, listing: Listing, replaced: seq<Replacement>)
    requires |original| >= HEADER_SIZE && Fixable(lz, original, listing)
    ensures var out := Appended(crc, original, listing, replaced).0;
      && |out| >= HEADER_SIZE && Magic(out)
      && HeaderOf(out) == HeaderOf(original).(parts := if listing.version == 18 then 2 else 1)
  {
    ListingFits(lz, original, listing);
    assert HeaderOf(original).parts == 1;
    hide ReadListing, Layout, HeaderOf, Lit;
    var split := listing.version == 18;
    BaseTells(original, split);
    var out := Appended(crc, original, listing, replaced).0;
    var base := Base(original, split);
    assert base <= out;
    assert out[..HEADER_SIZE] == base[..HEADER_SIZE];
    HeaderTells(out, base);
  }

  /** All that building a copy goes by, and that it succeeds. */
  ghost predicate Builds(lz: Lz4, crc: Checksum, original: seq<byte>, listing: Listing, replaced: seq<Replacement>,
                         names: seq<Text>)
  {
    && |original| >= HEADER_SIZE && |names| == |listing.files|
    && Fixable(lz, original, listing) && NamesFit(names) && ReplacementsFit(listing.files, replaced)
    && Room(lz, crc, original, listing, replaced, names)
    && Built(lz, crc, original, listing, replaced, names).Some?
  }

  lemma BuildsNames(lz: Lz4, crc: Checksum, original: seq<byte>, listing: Listing, replaced: seq<Replacement>,
                    names: seq<Text>)
    requires Builds(lz, crc, original, listing, replaced, names)
    ensures |original| >= HEADER_SIZE && |names| == |listing.files|
    ensures Built(lz, crc, original, listing, replaced, names).Some?
  {
    hide ReadListing, Layout, Room, Fixable, NamesFit, ReplacementsFit, Built;
  }

  /**
   A copy whose bytes before the list are `out` but for the header's word for
   the list, and the list as it is read.
  */
  predicate CopyIs(copy: Copy, l: Listing, version: nat, out: seq<byte>, files: seq<PakFile>, original: seq<byte>) {
    && l.version == version && l.parts == (if version == 18 then 2 else 1) && l.listOffset == |out|
    && l.files == AllStored(version, files)
    && |copy.main| >= |out| >= HEADER_SIZE && copy.main[..8] == out[..8] && copy.main[20..|out|] == out[20..]
    && copy.second == (if version == 18 then Some(original) else None)
  }

  /** The copy's list: the same entries, in parts, under their new names. */
  lemma CopyListing(lz: Lz4, crc: Checksum, original: seq<byte>, listing: Listing, replaced: seq<Replacement>,
                    names: seq<Text>)
    requires Builds(lz, crc, original, listing, replaced, names)
    ensures var copy := Built(lz, crc, original, listing, replaced, names).value;
      var (out, done) := Appended(crc, original, listing, replaced);
      && ReadListing(lz, copy.main).Some?
      && CopyIs(copy, ReadListing(lz, copy.main).value, listing.version, out, Named(done, names), original)
  {
    hide ReadListing, Layout, HeaderOf, Magic, AllStored, AllFit, WithListing, ListBytes, Base;
    ListingFits(lz, original, listing);
    AppendedFits(lz, crc, original, listing, replaced, names);
    AppendedTells(lz, crc, original, listing, replaced);
    var (out, done) := Appended(crc, original, listing, replaced);
    WithListingIs(lz, out, listing.(files := Named(done, names)));
    ListingReads(lz, out, listing.(files := Named(done, names)));
  }

  // ---- reading the copy ----

  /** Reading an entry takes nothing but its place, its sizes, its method and the bytes there. */
  lemma SameEntry(decode: Decoder, a: seq<byte>, f: PakFile, b: seq<byte>, g: PakFile)
    requires f.offset == g.offset && f.sizeOnDisk == g.sizeOnDisk && f.uncompressedSize == g.uncompressedSize
    requires f.flags == g.flags && f.offset + f.sizeOnDisk <= |a| && f.offset + f.sizeOnDisk <= |b|
    requires a[f.offset..f.offset + f.sizeOnDisk] == b[f.offset..f.offset + f.sizeOnDisk]
    ensures ReadEntry(decode, a, f) == ReadEntry(decode, b, g)
  {
  }

  lemma PlainEntry(decode: Decoder, data: seq<byte>, f: PakFile, part: seq<byte>)
    requires f.flags == 0 && f.sizeOnDisk == |part| && 0 < |part| <= MAX_FILE && f.uncompressedSize == 0
    requires f.offset + |part| <= |data| && data[f.offset..f.offset + |part|] == part
    ensures ReadEntry(decode, data, f) == Some(part)
  {
  }

  /** The entry's bytes among those that tell where the list is, which a copy has anew, are as they were. */
  predicate ListFieldKept(original: seq<byte>, main: seq<byte>, f: PakFile) {
    forall k :: 8 <= k < 20 && f.offset <= k < f.offset + f.sizeOnDisk && k < |main| && k < |original| ==>
      main[k] == original[k]
  }

  /** So are those of an entry that has none of them. */
  predicate ClearOfListField(f: PakFile) {
    f.offset >= 20 || f.offset + f.sizeOnDisk <= 8
  }

  lemma ClearIsKept(original: seq<byte>, main: seq<byte>, f: PakFile)
    requires ClearOfListField(f)
    ensures ListFieldKept(original, main, f)
  {
  }

  lemma SameBytes(main: seq<byte>, out: seq<byte>, at: nat, n: nat)
    requires HEADER_SIZE <= |out| <= |main| && main[..8] == out[..8] && main[20..|out|] == out[20..]
    requires at + n <= |out| && forall k :: 8 <= k < 20 && at <= k < at + n ==> main[k] == out[k]
    ensures main[at..at + n] == out[at..at + n]
  {
    forall i | at <= i < at + n
      ensures main[i] == out[i]
    {
      if i >= 20 {
        assert main[20..|out|][i - 20] == out[20..][i - 20];
      } else if i < 8 {
        assert main[..8][i] == out[..8][i];
      }
    }
  }

  lemma ReplacedIn(decode: Decoder, copy: Copy, l: Listing, version: nat, out: seq<byte>, files: seq<PakFile>,
                   original: seq<byte>, base: seq<byte>, p: Replacement)
    requires CopyIs(copy, l, version, out, files, original) && p.index < |files|
    requires Lies(base, out, files[p.index], p) && |base| >= HEADER_SIZE && 0 < |p.data| <= MAX_FILE
    ensures p.index < |l.files| && CopyEntry(decode, copy, l.files[p.index]) == Some(p.data)
    ensures var f := l.files[p.index];
      f.offset % ALIGN == 0 && HEADER_SIZE <= f.offset && f.offset + |p.data| <= l.listOffset
  {
    hide ReadEntry;
    var f := files[p.index];
    SameBytes(copy.main, out, f.offset, |p.data|);
    PlainEntry(decode, copy.main, Stored(version, f), p.data);
  }

  /** What is replaced reads as its replacement. */
  lemma ReplacedReads(lz: Lz4, crc: Checksum, decode: Decoder, original: seq<byte>, listing: Listing,
                      replaced: seq<Replacement>, names: seq<Text>, k: nat)
    requires Builds(lz, crc, original, listing, replaced, names) && k < |replaced|
    ensures var copy := Built(lz, crc, original, listing, replaced, names).value;
      && ReadListing(lz, copy.main).Some?
      && var l := ReadListing(lz, copy.main).value;
         var i := replaced[k].index;
         && |l.files| == |listing.files| && i < |l.files| && l.files[i].name == names[i]
         && CopyEntry(decode, copy, l.files[i]) == Some(replaced[k].data)
         && l.files[i].offset % ALIGN == 0 && HEADER_SIZE <= l.files[i].offset
         && l.files[i].offset + |replaced[k].data| <= l.listOffset
  {
    CopyListing(lz, crc, original, listing, replaced, names);
    var split := listing.version == 18;
    var base := Base(original, split);
    var (out, done) := Appended(crc, original, listing, replaced);
    LayoutLies(crc, base, if split then InPart(listing.files, 1) else listing.files, replaced, |replaced|, k);
    hide ReadListing, Layout, Built, Room, Fixable, Base, ReadEntry, CopyEntry, Appended, NamesFit;
    var copy := Built(lz, crc, original, listing, replaced, names).value;
    LiesNamed(base, out, done, names, replaced[k]);
    ReplacedIn(decode, copy, ReadListing(lz, copy.main).value, listing.version, out, Named(done, names), original, base,
               replaced[k]);
  }

  lemma LiesNamed(base: seq<byte>, out: seq<byte>, done: seq<PakFile>, names: seq<Text>, p: Replacement)
    requires |names| == |done| && p.index < |done| && Lies(base, out, done[p.index], p)
    ensures Lies(base, out, Named(done, names)[p.index], p)
  {
  }

  lemma OtherIn(decode: Decoder, copy: Copy, l: Listing, version: nat, out: seq<byte>, files: seq<PakFile>,
                original: seq<byte>, i: nat, f: PakFile, name: Text)
    requires CopyIs(copy, l, version, out, files, original) && i < |files|
    requires files[i] == f.(part := if version == 18 then 1 else 0, name := name)
    requires version == 18 || (original <= out && ReadEntry(decode, original, f).Some?)
    ensures i < |l.files|
    ensures version == 18 || ListFieldKept(original, copy.main, f) ==>
      CopyEntry(decode, copy, l.files[i]) == ReadEntry(decode, original, f)
    ensures version != 18 && f.flags % 16 == 0 ==>
      CopyEntry(decode, copy, l.files[i]) == ReadEntry(decode, original, f) ==> ListFieldKept(original, copy.main, f)
  {
    if version == 18 {
      SameOriginal(decode, original, f, l.files[i]);
    } else {
      assert out[f.offset..f.offset + f.sizeOnDisk] == original[f.offset..f.offset + f.sizeOnDisk];
      if ListFieldKept(original, copy.main, f) {
        SameBytes(copy.main, out, f.offset, f.sizeOnDisk);
        SameEntry(decode, copy.main, l.files[i], original, f);
      } else if f.flags % 16 == 0 {
        OtherBytes(decode, copy.main, l.files[i], original, f);
      }
    }
  }

  lemma OtherBytes(decode: Decoder, main: seq<byte>, g: PakFile, original: seq<byte>, f: PakFile)
    requires f.offset == g.offset && f.sizeOnDisk == g.sizeOnDisk && f.uncompressedSize == g.uncompressedSize
    requires f.flags == g.flags && f.flags % 16 == 0 && f.offset + f.sizeOnDisk <= |main|
    requires ReadEntry(decode, original, f).Some? && !ListFieldKept(original, main, f)
    ensures ReadEntry(decode, main, g) != ReadEntry(decode, original, f)
  {
    var k :| 8 <= k < 20 && f.offset <= k < f.offset + f.sizeOnDisk && main[k] != original[k];
    assert main[f.offset..f.offset + f.sizeOnDisk][k - f.offset] == main[k];
    assert original[f.offset..f.offset + f.sizeOnDisk][k - f.offset] == original[k];
  }

  /**
   What is not replaced reads as it did, where the copy has the bytes under it
   that tell where the list is as they were; what is not compressed only then.
  */
  lemma OthersRead(lz: Lz4, crc: Checksum, decode: Decoder, original: seq<byte>, listing: Listing,
                   replaced: seq<Replacement>, names: seq<Text>, i: nat)
    requires Builds(lz, crc, original, listing, replaced, names) && i < |names| && !Replaces(replaced, |replaced|, i)
    requires listing.version == 18 || ReadEntry(decode, original, listing.files[i]).Some?
    ensures var copy := Built(lz, crc, original, listing, replaced, names).value;
      && ReadListing(lz, copy.main).Some?
      && var l := ReadListing(lz, copy.main).value;
         var f := listing.files[i];
         && |l.files| == |listing.files| && l.files[i].name == names[i]
         && (listing.version == 18 || ListFieldKept(original, copy.main, f) ==>
               CopyEntry(decode, copy, l.files[i]) == ReadEntry(decode, original, f))
         && (listing.version != 18 && f.flags % 16 == 0
             && CopyEntry(decode, copy, l.files[i]) == ReadEntry(decode, original, f) ==>
               ListFieldKept(original, copy.main, f))
  {
    CopyListing(lz, crc, original, listing, replaced, names);
    var split := listing.version == 18;
    var (out, done) := Appended(crc, original, listing, replaced);
    var files := if split then InPart(listing.files, 1) else listing.files;
    LayoutKeeps(crc, Base(original, split), files, replaced, |replaced|, i);
    assert Base(original, split) <= out;
    assert listing.files[i].part == 0;
    hide ReadListing, Layout, Built, Room, Fixable, Replaces, ReadEntry, CopyEntry, ListFieldKept, Appended;
    var copy := Built(lz, crc, original, listing, replaced, names).value;
    OtherIn(decode, copy, ReadListing(lz, copy.main).value, listing.version, out, Named(done, names), original, i,
            listing.files[i], names[i]);
  }

  lemma SameOriginal(decode: Decoder, data: seq<byte>, f: PakFile, g: PakFile)
    requires f.offset == g.offset && f.sizeOnDisk == g.sizeOnDisk && f.uncompressedSize == g.uncompressedSize
    requires f.flags == g.flags
    ensures ReadEntry(decode, data, f) == ReadEntry(decode, data, g)
  {
  }

  /** The list of a copy is further on than the archive's was, so the header's number for it is another. */
  lemma ListMoves(lz: Lz4, crc: Checksum, original: seq<byte>, listing: Listing, replaced: seq<Replacement>,
                  names: seq<Text>)
    requires Builds(lz, crc, original, listing, replaced, names) && listing.version != 18
    ensures var main := Built(lz, crc, original, listing, replaced, names).value.main;
      |main| >= HEADER_SIZE && main[8..16] != original[8..16]
  {
    CopyListing(lz, crc, original, listing, replaced, names);
    ListWithin(lz, original, listing);
    hide Fixable, Room, Built, Layout, NamesFit, ReplacementsFit;
    var main := Built(lz, crc, original, listing, replaced, names).value.main;
    ListWithin(lz, main, ReadListing(lz, main).value);
    assert original <= Appended(crc, original, listing, replaced).0;
    hide ReadListing, HeaderOf, Number;
    OtherNumber(main, original, 8, 8);
  }

  lemma OtherNumber(a: seq<byte>, b: seq<byte>, at: nat, n: nat)
    requires at + n <= |a| && at + n <= |b| && Number(a, at, n) != Number(b, at, n)
    ensures a[at..at + n] != b[at..at + n]
  {
    hide Guid.Word;
  }

  lemma ListWithin(lz: Lz4, data: seq<byte>, listing: Listing)
    requires ReadListing(lz, data) == Some(listing)
    ensures |data| >= HEADER_SIZE && listing.listOffset < |data| && listing.listOffset == Number(data, 8, 8)
  {
    hide Number, FilesIn, Lit;
  }

  /** So an uncompressed entry that has that number's bytes never reads as it did, in a copy of the whole archive. */
  lemma OverListOffset(lz: Lz4, crc: Checksum, decode: Decoder, original: seq<byte>, listing: Listing,
                       replaced: seq<Replacement>, names: seq<Text>, i: nat)
    requires Builds(lz, crc, original, listing, replaced, names) && i < |names| && !Replaces(replaced, |replaced|, i)
    requires listing.version != 18 && ReadEntry(decode, original, listing.files[i]).Some?
    requires var f := listing.files[i]; f.flags % 16 == 0 && f.offset <= 8 && f.offset + f.sizeOnDisk >= 16
    ensures var copy := Built(lz, crc, original, listing, replaced, names).value;
      && ReadListing(lz, copy.main).Some? && |ReadListing(lz, copy.main).value.files| == |listing.files|
      && CopyEntry(decode, copy, ReadListing(lz, copy.main).value.files[i])
           != ReadEntry(decode, original, listing.files[i])
  {
    hide ReadListing, Replaces, CopyEntry, ReadEntry, Room, Fixable, NamesFit, ReplacementsFit;
    OthersRead(lz, crc, decode, original, listing, replaced, names, i);
    ListMoves(lz, crc, original, listing, replaced, names);
    hide Builds, Built;
    var main := Built(lz, crc, original, listing, replaced, names).value.main;
    var k :| 0 <= k < 8 && main[8..16][k] != original[8..16][k];
    assert main[8 + k] != original[8 + k];
  }

  // ---- an archive that is not copied as it was ----

  /** A coder that packs nothing. */
  function PlainLz4(): Lz4 {
    Lz4(data => Some(data), (data, size) => Some(data))
  }

  function NoChecksum(): Checksum {
    data => 0
  }

  /** One entry, uncompressed, of the eight bytes that tell where the list is. */
  function HeaderEntry(name: Text): seq<PakFile> {
    [PakFile(name, 8, 8, 0, 0, 0, 0)]
  }

  function HeaderOnly(): (r: seq<byte>)
    ensures |r| == HEADER_SIZE
  {
    Lit("LSPK") + Le(15, 4) + Zeros(32)
  }

  function SampleListing(): Listing {
    Listing(15, 0, 1, 0, 0, 0, HeaderEntry(Lit("A")))
  }

  lemma HeaderOnlyIs()
    ensures Magic(HeaderOnly()) && HeaderOf(HeaderOnly()).version == 15 && HeaderOf(HeaderOnly()).parts == 1
  {
    var data := HeaderOnly();
    Sizes();
    hide Number, Le, Lit, Zeros;
    assert data == Lit("LSPK") + Le(15, 4) + Zeros(32) && data[..4] == Lit("LSPK");
    NumberWritten(Lit("LSPK"), 15, 4, Zeros(32));
    SmallModulo(15, Pow2(32));
  }

  lemma PlainListing(data: seq<byte>, listing: Listing, name: Text)
    requires Magic(data) && HeaderOf(data).version == listing.version == 15 && |data| < 1000
    requires listing.files == HeaderEntry(name) && |name| == 1 && 0 !in name
    ensures Nameable(listing.files) && WithListing(PlainLz4(), data, listing).Some?
    ensures |ListBytes(15, listing.files)| == 296
    ensures var out := WithListing(PlainLz4(), data, listing).value;
      && |out| == |data| + 304 && ReadListing(PlainLz4(), out).Some?
      && var l := ReadListing(PlainLz4(), out).value;
         l.version == 15 && l.parts == 1 && l.files == listing.files
  {
    ListReads(15, listing.files);
    hide ListBytes, FilesIn, ReadListing, Le, NewListSize, Lit, Number;
    assert ListSize(15, |listing.files|) == 296;
    var packed := PlainLz4().compress(ListBytes(15, listing.files));
    assert packed.value != [];
    ListingReads(PlainLz4(), data, listing);
    assert AllStored(15, listing.files) == listing.files;
  }

  lemma OneLetter()
    ensures Lit("A") == [65] && Lit("a") == [97]
  {
  }

  ghost predicate IsSample(original: seq<byte>, listing: Listing) {
    && ReadListing(PlainLz4(), original) == Some(listing) && |original| == 344 && Magic(original)
    && listing.version == HeaderOf(original).version == 15 && listing.parts == 1
    && listing.files == HeaderEntry(Lit("A"))
  }

  /** The archive of that entry alone. */
  function SampleArchive(): (r: seq<byte>) {
    var out := WithListing(PlainLz4(), HeaderOnly(), SampleListing());
    if out.Some? then out.value else []
  }

  lemma SampleIs()
    ensures ReadListing(PlainLz4(), SampleArchive()).Some?
    ensures IsSample(SampleArchive(), ReadListing(PlainLz4(), SampleArchive()).value)
  {
    HeaderOnlyIs();
    OneLetter();
    hide ReadListing, WithListing, Lit, HeaderOnly, HeaderOf, Magic;
    PlainListing(HeaderOnly(), SampleListing(), Lit("A"));
    ListingFits(PlainLz4(), SampleArchive(), ReadListing(PlainLz4(), SampleArchive()).value);
  }

  lemma SampleBuilds(original: seq<byte>, listing: Listing)
    requires IsSample(original, listing)
    ensures Builds(PlainLz4(), NoChecksum(), original, listing, [], [Lit("a")])
  {
    OneLetter();
    hide ReadListing, WithListing, Lit, HeaderOf, Magic, ListBytes;
    assert Named(listing.files, [Lit("a")]) == HeaderEntry(Lit("a"));
    PlainListing(original, listing.(files := HeaderEntry(Lit("a"))), Lit("a"));
    assert Appended(NoChecksum(), original, listing, []) == (original, listing.files);
  }

  /** An entry that reads, through the copy's own list, as something else. */
  ghost predicate ReadsOtherwise(lz: Lz4, decode: Decoder, copy: Copy, i: nat, bytes: Option<seq<byte>>) {
    && ReadListing(lz, copy.main).Some?
    && i < |ReadListing(lz, copy.main).value.files|
    && CopyEntry(decode, copy, ReadListing(lz, copy.main).value.files[i]) != bytes
  }

  /** Renaming its entry, and nothing else, gives a copy in which the entry does not read as it did. */
  lemma SampleSpoilt(decode: Decoder)
    ensures |SampleArchive()| >= HEADER_SIZE && ReadListing(PlainLz4(), SampleArchive()).Some?
    ensures var listing := ReadListing(PlainLz4(), SampleArchive()).value;
      && listing.files == HeaderEntry(Lit("A")) && ReadEntry(decode, SampleArchive(), listing.files[0]).Some?
      && var copy := Built(PlainLz4(), NoChecksum(), SampleArchive(), listing, [], [Lit("a")]);
         && copy.Some?
         && ReadsOtherwise(PlainLz4(), decode, copy.value, 0, ReadEntry(decode, SampleArchive(), listing.files[0]))
  {
    SampleIs();
    var original, listing := SampleArchive(), ReadListing(PlainLz4(), SampleArchive()).value;
    hide SampleArchive, Lit, ReadListing;
    SampleBuilds(original, listing);
    hide Builds, CopyEntry;
    BuildsNames(PlainLz4(), NoChecksum(), original, listing, [], [Lit("a")]);
    hide Built;
    OverListOffset(PlainLz4(), NoChecksum(), decode, original, listing, [], [Lit("a")], 0);
  }

  /** Replacements lie in the copy in the order they were made, and do not meet. */
  lemma ReplacedInOrder(lz: Lz4, crc: Checksum, original: seq<byte>, listing: Listing, replaced: seq<Replacement>,
                        names: seq<Text>, j: nat, k: nat)
    requires Builds(lz, crc, original, listing, replaced, names) && j < k < |replaced|
    ensures var copy := Built(lz, crc, original, listing, replaced, names).value;
      && ReadListing(lz, copy.main).Some?
      && var files := ReadListing(lz, copy.main).value.files;
         && |files| == |listing.files| && replaced[j].index < |files| && replaced[k].index < |files|
         && files[replaced[j].index].offset + |replaced[j].data| <= files[replaced[k].index].offset
  {
    CopyListing(lz, crc, original, listing, replaced, names);
    var split := listing.version == 18;
    var files := if split then InPart(listing.files, 1) else listing.files;
    LayoutInOrder(crc, Base(original, split), files, replaced, |replaced|, j, k);
    hide ReadListing, Layout, Built, Room, Fixable, NamesFit;
  }
}
