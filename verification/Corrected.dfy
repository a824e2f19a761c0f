/**
 The case fixer from archive to archive (pak_fix_build in src/pak_fix.cpp):
 which entries are loaded, what is put in their place, and that what the
 corrected copy holds, read as the original was, is what the fixer made of it.
*/
module Corrected {
  import opened BitStrings
  import opened Lsf
  import opened LsfFile
  import opened Pak
  import Archives = PakFile
  import opened PakFix
  import opened Scanning
  import opened Sequences
  import opened Spelling
  import opened Unification
  import opened Wrappers
  import Fixer

  const MAX_SCAN := 0x200_0000

  /** How to decode: entries, sections of LSF files, and the list. */
  datatype Codecs = Codecs(entries: Decoder, sections: Codec, list: Lz4)

  // ---- loading ----

  function TextExtensions(): set<Text> {
    {Lit("lsx"), Lit("lsj"), Lit("xml"), Lit("xaml"), Lit("txt"), Lit("khn"), Lit("lua"), Lit("json"), Lit("ini"),
     Lit("cfg"), Lit("yaml"), Lit("yml")}
  }

  function LsfExtensions(): set<Text> {
    {Lit("lsf"), Lit("lsfx"), Lit("lsbc"), Lit("lsbs")}
  }

  function FullSize(f: PakFile): nat {
    if f.uncompressedSize != 0 then f.uncompressedSize else f.sizeOnDisk
  }

  /** The entries that are looked into: of a kind that refers to others, not empty, and not too large. */
  predicate LookedInto(f: PakFile) {
    && (Extension(f.name) in LsfExtensions() || Extension(f.name) in TextExtensions())
    && !IsEmpty(f) && FullSize(f) <= MAX_SCAN
  }

  /** An entry's content: its text, or its document's values and strings. */
  ghost function Loaded(codecs: Codecs, data: seq<byte>, f: PakFile, i: nat): Option<Content> {
    var bytes := ReadEntry(codecs.entries, data, f);
    if !LookedInto(f) || bytes == None then None
    else if Extension(f.name) in LsfExtensions() then
      var d := Read(codecs.sections, bytes.value);
      if d == None then None else Some(Content(i, true, d.value.values, d.value.stringValues, false))
    else Some(Content(i, false, bytes.value, [], false))
  }

  ghost function LoadedAll(codecs: Codecs, data: seq<byte>, files: seq<PakFile>, n: nat): seq<Content>
    requires n <= |files|
  {
    if n == 0 then []
    else
      var one := Loaded(codecs, data, files[n - 1], n - 1);
      LoadedAll(codecs, data, files, n - 1) + (if one == None then [] else [one.value])
  }

  function Names(files: seq<PakFile>): (r: seq<Text>)
    ensures |r| == |files| && forall i :: 0 <= i < |r| ==> r[i] == files[i].name
  {
    seq(|files|, i requires 0 <= i < |files| => files[i].name)
  }

  lemma {:induction false} LoadedAt(codecs: Codecs, data: seq<byte>, files: seq<PakFile>, n: nat, c: nat)
    requires n <= |files| && c < |LoadedAll(codecs, data, files, n)|
    ensures var x := LoadedAll(codecs, data, files, n)[c];
      x.file < n && Loaded(codecs, data, files[x.file], x.file) == Some(x)
  {
    hide Loaded;
    var one := Loaded(codecs, data, files[n - 1], n - 1);
    if c < |LoadedAll(codecs, data, files, n - 1)| {
      LoadedAt(codecs, data, files, n - 1, c);
    } else {
      LoadedFile(codecs, data, files[n - 1], n - 1);
    }
  }

  lemma LoadedFile(codecs: Codecs, data: seq<byte>, f: PakFile, i: nat)
    ensures var one := Loaded(codecs, data, f, i); one.Some? ==> one.value.file == i && !one.value.changed
  {
    hide Read, ReadEntry, LookedInto, LsfExtensions;
  }

  /** Contents are of different entries. */
  lemma {:induction false} LoadedDiffer(codecs: Codecs, data: seq<byte>, files: seq<PakFile>, n: nat, c: nat, c': nat)
    requires n <= |files| && c < c' < |LoadedAll(codecs, data, files, n)|
    ensures var all := LoadedAll(codecs, data, files, n); all[c].file < all[c'].file
  {
    hide Loaded;
    LoadedAt(codecs, data, files, n, c');
    if c' < |LoadedAll(codecs, data, files, n - 1)| {
      LoadedDiffer(codecs, data, files, n - 1, c, c');
    } else {
      LoadedAt(codecs, data, files, n - 1, c);
      LoadedFile(codecs, data, files[n - 1], n - 1);
    }
  }

  // ---- what is put in place of what ----

  /** The bytes an entry's new content is written as. */
  ghost function NewBytes(codecs: Codecs, data: seq<byte>, f: PakFile, i: nat, after: Content): (r: seq<byte>)
    requires Loaded(codecs, data, f, i).Some? && |after.bytes| == |Loaded(codecs, data, f, i).value.bytes|
  {
    var bytes := ReadEntry(codecs.entries, data, f).value;
    if Loaded(codecs, data, f, i).value.lsf then
      EditsSurvive(codecs.sections, bytes, after.bytes);
      Written(Read(codecs.sections, bytes).value.(values := after.bytes))
    else after.bytes
  }

  /** The new content is of the same entries as what was loaded, and as long. */
  ghost predicate Follows(codecs: Codecs, data: seq<byte>, files: seq<PakFile>, after: seq<Content>) {
    var before := LoadedAll(codecs, data, files, |files|);
    && |after| == |before|
    && forall c :: 0 <= c < |before| ==> SameFile(before[c], after[c]) && |after[c].bytes| == |before[c].bytes|
  }

  lemma FollowsAt(codecs: Codecs, data: seq<byte>, files: seq<PakFile>, after: seq<Content>, c: nat)
    requires Follows(codecs, data, files, after) && c < |after|
    ensures var i := after[c].file;
      && i < |files| && Loaded(codecs, data, files[i], i).Some?
      && |Loaded(codecs, data, files[i], i).value.bytes| == |after[c].bytes|
      && SameFile(Loaded(codecs, data, files[i], i).value, after[c])
  {
    hide Loaded, LoadedAll;
    LoadedAt(codecs, data, files, |files|, c);
  }

  ghost function Rewrite(codecs: Codecs, data: seq<byte>, files: seq<PakFile>, after: seq<Content>, c: nat): Replacement
    requires Follows(codecs, data, files, after) && c < |after|
  {
    FollowsAt(codecs, data, files, after, c);
    var i := after[c].file;
    Replacement(i, NewBytes(codecs, data, files[i], i, after[c]))
  }

  /** The changed contents, in order. */
  ghost function Rewritten(codecs: Codecs, data: seq<byte>, files: seq<PakFile>, after: seq<Content>, n: nat)
      : seq<Replacement>
    requires Follows(codecs, data, files, after) && n <= |after|
  {
    if n == 0 then []
    else
      Rewritten(codecs, data, files, after, n - 1)
      + (if after[n - 1].changed then [Rewrite(codecs, data, files, after, n - 1)] else [])
  }

  /** A newline for each empty entry, in order. */
  function Filled(files: seq<PakFile>, n: nat): (r: seq<Replacement>)
    requires n <= |files|
    ensures forall k :: 0 <= k < |r| ==> r[k].index < n && IsEmpty(files[r[k].index]) && r[k].data == [NEWLINE]
  {
    if n == 0 then []
    else Filled(files, n - 1) + (if IsEmpty(files[n - 1]) then [Replacement(n - 1, [NEWLINE])] else [])
  }

  ghost function Replaced(codecs: Codecs, data: seq<byte>, files: seq<PakFile>, after: seq<Content>): seq<Replacement>
    requires Follows(codecs, data, files, after)
  {
    Rewritten(codecs, data, files, after, |after|) + Filled(files, |files|)
  }

  /** A content that is changed is among those rewritten, and what is rewritten is one. */
  lemma {:induction false} RewrittenHas(codecs: Codecs, data: seq<byte>, files: seq<PakFile>, after: seq<Content>,
                                        n: nat,
                                        c: nat) returns (k: nat)
    requires Follows(codecs, data, files, after) && c < n <= |after| && after[c].changed
    ensures var all := Rewritten(codecs, data, files, after, n);
      k < |all| && all[k] == Rewrite(codecs, data, files, after, c)
  {
    hide Follows, Rewrite;
    if c == n - 1 {
      k := |Rewritten(codecs, data, files, after, n - 1)|;
    } else {
      k := RewrittenHas(codecs, data, files, after, n - 1, c);
    }
  }

  lemma {:induction false} RewrittenFrom(codecs: Codecs, data: seq<byte>, files: seq<PakFile>, after: seq<Content>,
                                         n: nat, k: nat) returns (c: nat)
    requires Follows(codecs, data, files, after) && n <= |after| && k < |Rewritten(codecs, data, files, after, n)|
    ensures c < n && after[c].changed && Rewritten(codecs, data, files, after, n)[k].index == after[c].file
    ensures after[c].file < |files| && LookedInto(files[after[c].file])
  {
    hide Follows, Loaded, NewBytes, LookedInto;
    if k < |Rewritten(codecs, data, files, after, n - 1)| {
      c := RewrittenFrom(codecs, data, files, after, n - 1, k);
    } else {
      c := n - 1;
      FollowsAt(codecs, data, files, after, c);
      IsLookedInto(codecs, data, files[after[c].file], after[c].file);
    }
  }

  lemma IsLookedInto(codecs: Codecs, data: seq<byte>, f: PakFile, i: nat)
    ensures Loaded(codecs, data, f, i).Some? ==> LookedInto(f) && !IsEmpty(f)
  {
    hide Read, ReadEntry, LsfExtensions, TextExtensions;
  }

  lemma {:induction false} FilledHas(files: seq<PakFile>, n: nat, i: nat) returns (k: nat)
    requires i < n <= |files| && IsEmpty(files[i])
    ensures k < |Filled(files, n)| && Filled(files, n)[k] == Replacement(i, [NEWLINE])
  {
    if i == n - 1 {
      k := |Filled(files, n - 1)|;
    } else {
      k := FilledHas(files, n - 1, i);
    }
  }

  // ---- each entry has one replacement at most ----

  lemma {:induction false} FilledDistinct(files: seq<PakFile>, n: nat)
    requires n <= |files|
    ensures IndicesDistinct(Filled(files, n))
  {
    if n > 0 {
      FilledDistinct(files, n - 1);
    }
  }

  lemma FilesDiffer(codecs: Codecs, data: seq<byte>, files: seq<PakFile>, after: seq<Content>, c: nat, c': nat)
    requires Follows(codecs, data, files, after) && c < c' < |after|
    ensures after[c].file != after[c'].file
  {
    hide LoadedAll;
    LoadedDiffer(codecs, data, files, |files|, c, c');
  }

  lemma {:induction false} RewrittenDistinct(codecs: Codecs, data: seq<byte>, files: seq<PakFile>, after: seq<Content>,
                                             n: nat)
    requires Follows(codecs, data, files, after) && n <= |after|
    ensures IndicesDistinct(Rewritten(codecs, data, files, after, n))
  {
    hide Follows, NewBytes;
    if n > 0 {
      RewrittenDistinct(codecs, data, files, after, n - 1);
      var all := Rewritten(codecs, data, files, after, n - 1);
      forall k | 0 <= k < |all|
        ensures all[k].index != after[n - 1].file
      {
        var c := RewrittenFrom(codecs, data, files, after, n - 1, k);
        FilesDiffer(codecs, data, files, after, c, n - 1);
      }
    }
  }

  lemma ReplacedDistinct(codecs: Codecs, data: seq<byte>, files: seq<PakFile>, after: seq<Content>)
    requires Follows(codecs, data, files, after)
    ensures IndicesDistinct(Replaced(codecs, data, files, after))
    ensures forall k :: 0 <= k < |Replaced(codecs, data, files, after)| ==>
      Replaced(codecs, data, files, after)[k].index < |files|
  {
    hide Follows, IsEmpty;
    RewrittenDistinct(codecs, data, files, after, |after|);
    FilledDistinct(files, |files|);
    var a := Rewritten(codecs, data, files, after, |after|);
    forall k | 0 <= k < |a|
      ensures a[k].index < |files| && !IsEmpty(files[a[k].index])
    {
      var c := RewrittenFrom(codecs, data, files, after, |after|, k);
    }
  }

  /** An entry that is neither of a changed content nor empty is not replaced. */
  lemma NotReplaced(codecs: Codecs, data: seq<byte>, files: seq<PakFile>, after: seq<Content>, i: nat)
    requires Follows(codecs, data, files, after) && i < |files| && !IsEmpty(files[i])
    requires forall c :: 0 <= c < |after| && after[c].file == i ==> !after[c].changed
    ensures var all := Replaced(codecs, data, files, after); !Replaces(all, |all|, i)
  {
    hide Follows;
    hide IsEmpty;
    var all := Replaced(codecs, data, files, after);
    if Replaces(all, |all|, i) {
      var k: nat :| k < |all| && all[k].index == i;
      var a := Rewritten(codecs, data, files, after, |after|);
      if k < |a| {
        var c := RewrittenFrom(codecs, data, files, after, |after|, k);
      }
      assert false;
    }
  }

  // ---- reading the corrected copy ----

  /** An entry's bytes, read as the original's were, hold a content. */
  ghost predicate Holds(codecs: Codecs, bytes: Option<seq<byte>>, x: Content) {
    && bytes.Some?
    && if x.lsf then
         var d := Read(codecs.sections, bytes.value);
         d.Some? && d.value.values == x.bytes && d.value.stringValues == x.strings
       else bytes.value == x.bytes
  }

  lemma LoadedHolds(codecs: Codecs, data: seq<byte>, f: PakFile, i: nat)
    requires Loaded(codecs, data, f, i).Some?
    ensures Holds(codecs, ReadEntry(codecs.entries, data, f), Loaded(codecs, data, f, i).value)
  {
    hide Read, ReadEntry;
  }

  lemma NewHolds(codecs: Codecs, data: seq<byte>, f: PakFile, i: nat, after: Content)
    requires Loaded(codecs, data, f, i).Some? && SameFile(Loaded(codecs, data, f, i).value, after)
    requires |after.bytes| == |Loaded(codecs, data, f, i).value.bytes|
    ensures Holds(codecs, Some(NewBytes(codecs, data, f, i, after)), after)
  {
    hide Read, ReadEntry, DocumentOk, Written, Prefix;
    var bytes := ReadEntry(codecs.entries, data, f).value;
    if after.lsf {
      EditsSurvive(codecs.sections, bytes, after.bytes);
    }
  }

  /** What a copy is built from: the archive, the new contents and the new names. */
  ghost predicate Corrects(codecs: Codecs, crc: Checksum, original: seq<byte>, listing: Listing, after: seq<Content>,
                           names: seq<Text>)
  {
    && Follows(codecs, original, listing.files, after)
    && Builds(codecs.list, crc, original, listing, Replaced(codecs, original, listing.files, after), names)
  }

  ghost function CopyOf(codecs: Codecs, crc: Checksum, original: seq<byte>, listing: Listing, after: seq<Content>,
                        names: seq<Text>): Copy
    requires Corrects(codecs, crc, original, listing, after, names)
  {
    BuildsNames(codecs.list, crc, original, listing, Replaced(codecs, original, listing.files, after), names);
    Built(codecs.list, crc, original, listing, Replaced(codecs, original, listing.files, after), names).value
  }

  /** An entry of a copy, through the copy's own list: under its new name, and with these contents. */
  ghost predicate EntryIs(codecs: Codecs, copy: Copy, names: seq<Text>, i: nat, holds: Option<seq<byte>> -> bool) {
    && ReadListing(codecs.list, copy.main).Some?
    && var files := ReadListing(codecs.list, copy.main).value.files;
       && i < |files| == |names| && files[i].name == names[i] && holds(CopyEntry(codecs.entries, copy, files[i]))
  }

  /** A content that was not changed, and whose entry the copy has as it was. */
  ghost predicate Stays(codecs: Codecs, original: seq<byte>, listing: Listing, copy: Copy, after: seq<Content>, c: nat)
    requires Follows(codecs, original, listing.files, after) && c < |after|
  {
    && after[c].bytes == LoadedAll(codecs, original, listing.files, |listing.files|)[c].bytes
    && Readable(original, listing, copy, after[c].file)
  }

  /** An entry that has none of the bytes that a copy of the whole archive has otherwise. */
  predicate Readable(original: seq<byte>, listing: Listing, copy: Copy, i: nat) {
    i < |listing.files| && (listing.version == 18 || ListFieldKept(original, copy.main, listing.files[i]))
  }

  ghost function Holding(codecs: Codecs, x: Content): Option<seq<byte>> -> bool {
    bytes => Holds(codecs, bytes, x)
  }

  /**
   Every content that was loaded is in the copy as the fixer left it: read
   through the copy's own list, decoded as before, with strings where they
   were. Of an archive that is copied whole, the copy must have what was not
   changed as it was, for the header tells anew where the list is.
  */
  lemma ContentCorrected(codecs: Codecs, crc: Checksum, original: seq<byte>, listing: Listing, after: seq<Content>,
                         names: seq<Text>, c: nat)
    requires Corrects(codecs, crc, original, listing, after, names) && c < |after|
    requires !after[c].changed ==>
      Stays(codecs, original, listing, CopyOf(codecs, crc, original, listing, after, names), after, c)
    ensures EntryIs(codecs, CopyOf(codecs, crc, original, listing, after, names), names, after[c].file,
                    Holding(codecs, after[c]))
  {
    if after[c].changed {
      ChangedCorrected(codecs, crc, original, listing, after, names, c);
    } else {
      OtherCorrected(codecs, crc, original, listing, after, names, c);
    }
  }

  lemma ChangedCorrected(codecs: Codecs, crc: Checksum, original: seq<byte>, listing: Listing, after: seq<Content>,
                         names: seq<Text>, c: nat)
    requires Corrects(codecs, crc, original, listing, after, names) && c < |after| && after[c].changed
    ensures EntryIs(codecs, CopyOf(codecs, crc, original, listing, after, names), names, after[c].file,
                    Holding(codecs, after[c]))
  {
    hide Builds, Follows, Loaded, LoadedAll, Holds, NewBytes, ReadListing, CopyEntry, Built, Rewritten, Filled;
    var files := listing.files;
    var i := after[c].file;
    FollowsAt(codecs, original, files, after, c);
    var all := Replaced(codecs, original, files, after);
    BuildsNames(codecs.list, crc, original, listing, all, names);
    var k := RewrittenHas(codecs, original, files, after, |after|, c);
    assert all[k] == Rewritten(codecs, original, files, after, |after|)[k];
    ReplacedReads(codecs.list, crc, codecs.entries, original, listing, all, names, k);
    NewHolds(codecs, original, files[i], i, after[c]);
  }

  /** A content that was not changed is in the copy as it was loaded; so are all of them when no names are given. */
  lemma OtherKept(codecs: Codecs, crc: Checksum, original: seq<byte>, listing: Listing, after: seq<Content>,
                  names: seq<Text>, c: nat)
    requires Corrects(codecs, crc, original, listing, after, names) && c < |after| && !after[c].changed
    requires Readable(original, listing, CopyOf(codecs, crc, original, listing, after, names), after[c].file)
    ensures c < |LoadedAll(codecs, original, listing.files, |listing.files|)|
    ensures EntryIs(codecs, CopyOf(codecs, crc, original, listing, after, names), names, after[c].file,
                    Holding(codecs, LoadedAll(codecs, original, listing.files, |listing.files|)[c]))
  {
    hide Builds, Loaded, LoadedAll, Holds, ReadListing, CopyEntry, ReadEntry, ListFieldKept, Built, Replaced;
    hide IsEmpty, Replaces;
    var files := listing.files;
    var i := after[c].file;
    FollowsAt(codecs, original, files, after, c);
    var all := Replaced(codecs, original, files, after);
    BuildsNames(codecs.list, crc, original, listing, all, names);
    OnlyContent(codecs, original, files, after, c);
    IsLookedInto(codecs, original, files[i], i);
    NotReplaced(codecs, original, files, after, i);
    LoadedHolds(codecs, original, files[i], i);
    HoldsReads(codecs, original, files[i], i);
    OthersRead(codecs.list, crc, codecs.entries, original, listing, all, names, i);
    LoadedAt(codecs, original, files, |files|, c);
  }

  /**
   An uncompressed text that was not changed is in a whole copy as it was
   loaded exactly if the copy has its bytes.
  */
  lemma TextKeptIff(codecs: Codecs, crc: Checksum, original: seq<byte>, listing: Listing, after: seq<Content>,
                    names: seq<Text>, c: nat)
    requires Corrects(codecs, crc, original, listing, after, names) && c < |after| && !after[c].changed
    requires after[c].file < |listing.files| && listing.version != 18 && !after[c].lsf
    requires listing.files[after[c].file].flags % 16 == 0
    ensures c < |LoadedAll(codecs, original, listing.files, |listing.files|)|
    ensures var copy := CopyOf(codecs, crc, original, listing, after, names);
      Readable(original, listing, copy, after[c].file) <==>
      EntryIs(codecs, copy, names, after[c].file,
              Holding(codecs, LoadedAll(codecs, original, listing.files, |listing.files|)[c]))
  {
    hide Builds, Loaded, LoadedAll, Holds, ReadListing, CopyEntry, ReadEntry, ListFieldKept, Built, Replaced;
    hide IsEmpty, Replaces;
    var files := listing.files;
    var i := after[c].file;
    var copy := CopyOf(codecs, crc, original, listing, after, names);
    FollowsAt(codecs, original, files, after, c);
    LoadedAt(codecs, original, files, |files|, c);
    if Readable(original, listing, copy, i) {
      OtherKept(codecs, crc, original, listing, after, names, c);
    } else {
      var all := Replaced(codecs, original, files, after);
      BuildsNames(codecs.list, crc, original, listing, all, names);
      OnlyContent(codecs, original, files, after, c);
      IsLookedInto(codecs, original, files[i], i);
      NotReplaced(codecs, original, files, after, i);
      HoldsReads(codecs, original, files[i], i);
      OthersRead(codecs.list, crc, codecs.entries, original, listing, all, names, i);
      TextIsBytes(codecs, original, files[i], i);
    }
  }

  ghost function ReadingAs(read: Option<seq<byte>>): Option<seq<byte>> -> bool {
    bytes => bytes == read
  }

  /**
   Any other entry, one that was not scanned or not changed, is in the copy
   under its new name and reads as it did, if the copy has it as it was; and in
   a whole copy, if it is not compressed, only then.
  */
  lemma EntryKept(codecs: Codecs, crc: Checksum, original: seq<byte>, listing: Listing, after: seq<Content>,
                  names: seq<Text>, i: nat)
    requires Corrects(codecs, crc, original, listing, after, names) && i < |listing.files| && !IsEmpty(listing.files[i])
    requires forall c :: 0 <= c < |after| && after[c].file == i ==> !after[c].changed
    requires listing.version == 18 || ReadEntry(codecs.entries, original, listing.files[i]).Some?
    ensures var copy := CopyOf(codecs, crc, original, listing, after, names);
      var kept := EntryIs(codecs, copy, names, i, ReadingAs(ReadEntry(codecs.entries, original, listing.files[i])));
      && (Readable(original, listing, copy, i) ==> kept)
      && (listing.version != 18 && listing.files[i].flags % 16 == 0 && kept ==> Readable(original, listing, copy, i))
  {
    hide Builds, LoadedAll, ReadListing, CopyEntry, ReadEntry, ListFieldKept, Built, Replaced, Follows, IsEmpty;
    hide Replaces;
    var all := Replaced(codecs, original, listing.files, after);
    BuildsNames(codecs.list, crc, original, listing, all, names);
    NotReplaced(codecs, original, listing.files, after, i);
    OthersRead(codecs.list, crc, codecs.entries, original, listing, all, names, i);
  }

  lemma TextIsBytes(codecs: Codecs, data: seq<byte>, f: PakFile, i: nat)
    requires Loaded(codecs, data, f, i).Some? && !Loaded(codecs, data, f, i).value.lsf
    ensures forall bytes :: Holds(codecs, bytes, Loaded(codecs, data, f, i).value) ==>
      bytes == ReadEntry(codecs.entries, data, f)
  {
    hide Read, ReadEntry;
  }

  lemma OtherCorrected(codecs: Codecs, crc: Checksum, original: seq<byte>, listing: Listing, after: seq<Content>,
                       names: seq<Text>, c: nat)
    requires Corrects(codecs, crc, original, listing, after, names) && c < |after| && !after[c].changed
    requires Stays(codecs, original, listing, CopyOf(codecs, crc, original, listing, after, names), after, c)
    ensures EntryIs(codecs, CopyOf(codecs, crc, original, listing, after, names), names, after[c].file,
                    Holding(codecs, after[c]))
  {
    hide Builds, Loaded, LoadedAll, Holds, ReadListing, CopyEntry, CopyOf;
    OtherKept(codecs, crc, original, listing, after, names, c);
    SameHolds(codecs, LoadedAll(codecs, original, listing.files, |listing.files|)[c], after[c]);
  }

  lemma OnlyContent(codecs: Codecs, data: seq<byte>, files: seq<PakFile>, after: seq<Content>, c: nat)
    requires Follows(codecs, data, files, after) && c < |after|
    ensures forall c' :: 0 <= c' < |after| && after[c'].file == after[c].file ==> c' == c
  {
    hide Follows;
    forall c' | 0 <= c' < |after| && after[c'].file == after[c].file
      ensures c' == c
    {
      if c' < c {
        FilesDiffer(codecs, data, files, after, c', c);
      } else if c < c' {
        FilesDiffer(codecs, data, files, after, c, c');
      }
    }
  }

  lemma HoldsReads(codecs: Codecs, data: seq<byte>, f: PakFile, i: nat)
    requires Loaded(codecs, data, f, i).Some?
    ensures ReadEntry(codecs.entries, data, f).Some?
  {
    hide Read, ReadEntry;
  }

  lemma SameHolds(codecs: Codecs, a: Content, b: Content)
    requires SameFile(a, b) && a.bytes == b.bytes
    ensures forall bytes :: Holds(codecs, bytes, a) ==> Holds(codecs, bytes, b)
  {
    hide Read;
  }

  /** Every entry that was empty holds a newline in the copy. */
  lemma EmptyCorrected(codecs: Codecs, crc: Checksum, original: seq<byte>, listing: Listing, after: seq<Content>,
                       names: seq<Text>, i: nat)
    requires Corrects(codecs, crc, original, listing, after, names) && i < |listing.files| && IsEmpty(listing.files[i])
    ensures EntryIs(codecs, CopyOf(codecs, crc, original, listing, after, names), names, i,
                    bytes => bytes == Some([NEWLINE]))
  {
    hide Builds, Follows, ReadListing, CopyEntry, Built, Rewritten, Filled, IsEmpty;
    var all := Replaced(codecs, original, listing.files, after);
    BuildsNames(codecs.list, crc, original, listing, all, names);
    var k := FilledHas(listing.files, |listing.files|, i);
    var n := |Rewritten(codecs, original, listing.files, after, |after|)|;
    assert all[n + k] == Filled(listing.files, |listing.files|)[k];
    ReplacedReads(codecs.list, crc, codecs.entries, original, listing, all, names, n + k);
  }

  // ---- building a copy, step by step ----

  /** The contents of every entry that is looked into, and the documents of those that are LSF files. */
  method Load(codecs: Codecs, data: seq<byte>, files: seq<PakFile>)
      returns (contents: seq<Content>, docs: seq<Option<Document>>)
    ensures contents == LoadedAll(codecs, data, files, |files|) && |docs| == |contents|
    ensures forall c :: 0 <= c < |contents| ==> DocumentOf(codecs, data, files, contents[c], docs[c])
  {
    hide Loaded, DocumentOf;
    contents, docs := [], [];
    for i := 0 to |files|
      invariant contents == LoadedAll(codecs, data, files, i) && |docs| == |contents|
      invariant forall c :: 0 <= c < |contents| ==> DocumentOf(codecs, data, files, contents[c], docs[c])
    {
      var one, doc := LoadOne(codecs, data, files, i);
      if one.Some? {
        contents := contents + [one.value];
        docs := docs + [doc];
      }
    }
  }

  ghost predicate DocumentOf(codecs: Codecs, data: seq<byte>, files: seq<PakFile>, x: Content, doc: Option<Document>) {
    && x.file < |files| && ReadEntry(codecs.entries, data, files[x.file]).Some?
    && (x.lsf ==> doc.Some? && Read(codecs.sections, ReadEntry(codecs.entries, data, files[x.file]).value) == doc)
  }

  method LoadOne(codecs: Codecs, data: seq<byte>, files: seq<PakFile>, i: nat)
      returns (one: Option<Content>, doc: Option<Document>)
    requires i < |files|
    ensures one == Loaded(codecs, data, files[i], i)
    ensures one.Some? ==> DocumentOf(codecs, data, files, one.value, doc)
  {
    hide Read, ReadEntry, IsEmpty, Extension, TextExtensions, LsfExtensions;
    one, doc := None, None;
    var f := files[i];
    var lsf := Extension(f.name) in LsfExtensions();
    if (!lsf && Extension(f.name) !in TextExtensions()) || IsEmpty(f) || FullSize(f) > MAX_SCAN {
      return;
    }
    var bytes := ReadEntry(codecs.entries, data, f);
    if bytes == None {
      return;
    }
    if lsf {
      doc := LsfRead(codecs.sections, bytes.value);
      if doc.Some? {
        one := Some(Content(i, true, doc.value.values, doc.value.stringValues, false));
      }
    } else {
      one := Some(Content(i, false, bytes.value, [], false));
    }
  }

  /** The changed contents as they are written, and a newline for every empty entry. */
  method Replacing(codecs: Codecs, data: seq<byte>, files: seq<PakFile>, after: seq<Content>,
                   docs: seq<Option<Document>>)
      returns (replaced: seq<Replacement>)
    requires Follows(codecs, data, files, after) && |docs| == |after|
    requires forall c :: 0 <= c < |after| ==> DocumentOf(codecs, data, files, after[c], docs[c])
    ensures replaced == Replaced(codecs, data, files, after)
  {
    hide Follows, DocumentOf, Rewrite, IsEmpty;
    replaced := [];
    for c := 0 to |after|
      invariant replaced == Rewritten(codecs, data, files, after, c)
    {
      if after[c].changed {
        var bytes := after[c].bytes;
        if after[c].lsf {
          WritableDocument(codecs, data, files, after, c, docs[c]);
          bytes := LsfWrite(docs[c].value.(values := after[c].bytes));
        }
        RewriteIs(codecs, data, files, after, c, docs[c]);
        replaced := replaced + [Replacement(after[c].file, bytes)];
      }
    }
    ghost var rewritten := replaced;
    for i := 0 to |files|
      invariant replaced == rewritten + Filled(files, i)
    {
      if IsEmpty(files[i]) {
        replaced := replaced + [Replacement(i, [NEWLINE])];
      }
    }
  }

  lemma WritableDocument(codecs: Codecs, data: seq<byte>, files: seq<PakFile>, after: seq<Content>, c: nat,
                         doc: Option<Document>)
    requires Follows(codecs, data, files, after) && c < |after| && after[c].lsf
    requires DocumentOf(codecs, data, files, after[c], doc)
    ensures doc.Some? && |after[c].bytes| == |doc.value.values| && PrefixOk(doc.value.(values := after[c].bytes))
  {
    hide Follows, Read, ReadEntry, DocumentOk;
    FollowsAt(codecs, data, files, after, c);
    EditsSurvive(codecs.sections, ReadEntry(codecs.entries, data, files[after[c].file]).value, after[c].bytes);
    OfDocument(doc.value.(values := after[c].bytes));
  }

  lemma OfDocument(d: Document)
    requires DocumentOk(d)
    ensures PrefixOk(d)
  {
    hide Strings;
  }

  lemma RewriteIs(codecs: Codecs, data: seq<byte>, files: seq<PakFile>, after: seq<Content>, c: nat,
                  doc: Option<Document>)
    requires Follows(codecs, data, files, after) && c < |after| && DocumentOf(codecs, data, files, after[c], doc)
    requires after[c].lsf ==> doc.Some? && PrefixOk(doc.value.(values := after[c].bytes))
    ensures Rewrite(codecs, data, files, after, c) ==
      Replacement(after[c].file, if after[c].lsf then Written(doc.value.(values := after[c].bytes)) else after[c].bytes)
  {
    hide Follows, Read, ReadEntry, Written, PrefixOk, DocumentOk;
    FollowsAt(codecs, data, files, after, c);
  }

  /** An archive that may be corrected: in one part, not of the kind whose names are stored elsewhere. */
  predicate Correctable(listing: Listing) {
    && listing.parts == 1 && listing.flags / 4 % 2 == 0
    && forall i :: 0 <= i < |listing.files| ==> listing.files[i].part == 0
  }

  ghost function ArchiveOf(codecs: Codecs, original: seq<byte>, listing: Listing): Archive {
    Archive(Names(listing.files), LoadedAll(codecs, original, listing.files, |listing.files|))
  }

  /** What is built of the contents as they are after fixing; nothing if nothing is to be changed. */
  ghost function Outcome(codecs: Codecs, crc: Checksum, original: seq<byte>, listing: Listing, after: seq<Content>,
                         names: seq<Text>): Option<Copy>
    requires |original| >= HEADER_SIZE && |names| == |listing.files| && Follows(codecs, original, listing.files, after)
  {
    var replaced := Replaced(codecs, original, listing.files, after);
    if replaced == [] && names == Names(listing.files) then None
    else Built(codecs.list, crc, original, listing, replaced, names)
  }

  /**
   What fixing gives: only case changes, and the unified spelling exactly if
   there is one; or, if two names would be one, every name as it was.
  */
  ghost predicate FixedAs(codecs: Codecs, original: seq<byte>, listing: Listing, after: seq<Content>, names: seq<Text>,
                          spelled: seq<Text>)
  {
    var x := ArchiveOf(codecs, original, listing);
    && OnlyCase(x, Archive(spelled, after)) && (Unified(x, Archive(spelled, after)) <==> Agree(x))
    && Follows(codecs, original, listing.files, after)
    && names == (if Distinct(spelled) then spelled else x.names) && |names| == |listing.files|
    && Fixer.MarksOk(x, after, Distinct(spelled))
  }

  /** The corrected copy of an archive: none if it cannot be read, cannot be fixed or needs no change. */
  method Correct(codecs: Codecs, crc: Checksum, original: seq<byte>)
      returns (copy: Option<Copy>, after: seq<Content>, names: seq<Text>, ghost spelled: seq<Text>)
    requires ReadListing(codecs.list, original).Some? ==>
      NoBackslashes(Names(ReadListing(codecs.list, original).value.files))
    ensures var l := ReadListing(codecs.list, original);
      if l == None || !Correctable(l.value) then copy == None
      else
        && |original| >= HEADER_SIZE && FixedAs(codecs, original, l.value, after, names, spelled)
        && copy == Outcome(codecs, crc, original, l.value, after, names)
  {
    hide ReadListing, Sound, Unified, Replaced, Built, LoadedAll, Follows, Correctable, DocumentOf, Agree, OnlyCase;
    hide NoBackslashes, Fixer.MarksOk;
    copy, after, names, spelled := None, [], [], [];
    var l := Archives.PakListing(codecs.list, original);
    if l == None || !Correctable(l.value) {
      return;
    }
    var listing := l.value;
    HeaderIsThere(codecs.list, original);
    var contents, docs := Load(codecs, original, listing.files);
    NotChangedYet(codecs, original, listing.files);
    LoadedIsSound(codecs, original, listing);
    var ok, newNames;
    ok, newNames, after, spelled := Fixer.Fix(Names(listing.files), contents);
    FixedFollows(codecs, original, listing, after, spelled);
    names := if ok then newNames else Names(listing.files);
    SameDocuments(codecs, original, listing, after, docs);
    var replaced := Replacing(codecs, original, listing.files, after, docs);
    if replaced == [] && names == Names(listing.files) {
      return;
    }
    ReplacedDistinct(codecs, original, listing.files, after);
    copy := Archives.PakFixBuild(codecs.list, crc, original, listing, replaced, names);
  }

  lemma HeaderIsThere(lz: Lz4, data: seq<byte>)
    requires ReadListing(lz, data).Some?
    ensures |data| >= HEADER_SIZE
  {
    hide HeaderOf, FilesIn;
  }

  lemma NotChangedYet(codecs: Codecs, data: seq<byte>, files: seq<PakFile>)
    ensures var all := LoadedAll(codecs, data, files, |files|); forall c :: 0 <= c < |all| ==> !all[c].changed
  {
    hide Loaded, LoadedAll;
    var all := LoadedAll(codecs, data, files, |files|);
    forall c | 0 <= c < |all|
      ensures !all[c].changed
    {
      LoadedAt(codecs, data, files, |files|, c);
      LoadedFile(codecs, data, files[all[c].file], all[c].file);
    }
  }

  lemma FixedFollows(codecs: Codecs, original: seq<byte>, listing: Listing, after: seq<Content>, spelled: seq<Text>)
    requires OnlyCase(ArchiveOf(codecs, original, listing), Archive(spelled, after))
    ensures Follows(codecs, original, listing.files, after) && |spelled| == |listing.files|
  {
    hide SameButCase, LoadedAll;
  }

  predicate NoBackslashes(names: seq<Text>) {
    forall i :: 0 <= i < |names| ==> NoBackslash(names[i])
  }

  /** What is loaded is sound but for names: every content is an entry's, and its strings lie within it. */
  lemma LoadedIsSound(codecs: Codecs, original: seq<byte>, listing: Listing)
    requires NoBackslashes(Names(listing.files))
    ensures Sound(ArchiveOf(codecs, original, listing))
  {
    var x := ArchiveOf(codecs, original, listing);
    hide LoadedAll, Loaded, StringsFit, NoBackslash;
    forall c | 0 <= c < |x.contents|
      ensures ContentSound(x, x.contents[c])
    {
      LoadedAt(codecs, original, listing.files, |listing.files|, c);
      LoadedWithin(codecs, original, listing.files[x.contents[c].file], x.contents[c].file);
    }
  }

  lemma LoadedWithin(codecs: Codecs, data: seq<byte>, f: PakFile, i: nat)
    ensures var one := Loaded(codecs, data, f, i);
      one.Some? && one.value.lsf ==> StringsFit(one.value.bytes, one.value.strings)
  {
    hide Read, ReadEntry, LookedInto, LsfExtensions, StringsFit;
    var bytes := ReadEntry(codecs.entries, data, f);
    if bytes.Some? {
      ReadIsDocument(codecs.sections, bytes.value);
      if Read(codecs.sections, bytes.value).Some? {
        DocumentStrings(Read(codecs.sections, bytes.value).value);
      }
    }
  }

  lemma DocumentStrings(d: Document)
    requires DocumentOk(d)
    ensures StringsFit(d.values, d.stringValues)
  {
    var names := ReadNames(d.strings).value;
    var explicit := d.version >= 3 && Format(d) == 1;
    hide StringsFrom, ReadNames, Format, PrefixOk;
    StringsWithin(d.attributes, 0, explicit, |d.values|, names, 0);
    forall k | 0 <= k < |d.stringValues|
      ensures d.stringValues[k].pos + d.stringValues[k].len <= |d.values|
    {
      assert d.stringValues[k] in d.stringValues;
    }
  }

  lemma SameDocuments(codecs: Codecs, data: seq<byte>, listing: Listing, after: seq<Content>,
                      docs: seq<Option<Document>>)
    requires Follows(codecs, data, listing.files, after)
    requires var all := LoadedAll(codecs, data, listing.files, |listing.files|);
      |docs| == |all| && forall c :: 0 <= c < |all| ==> DocumentOf(codecs, data, listing.files, all[c], docs[c])
    ensures |docs| == |after| && forall c :: 0 <= c < |after| ==>
      DocumentOf(codecs, data, listing.files, after[c], docs[c])
  {
    hide LoadedAll, Read, ReadEntry;
  }

  /**
   The whole of it: where the names come out distinct, the corrected copy
   lists every entry under its new name, and every content in it, decoded as
   the original's was, is as the fixer left it: otherwise spelled only in case,
   and unified exactly if the archive can be.
  */
  lemma CorrectedIsUnified(codecs: Codecs, crc: Checksum, original: seq<byte>, listing: Listing, after: seq<Content>,
                           names: seq<Text>, spelled: seq<Text>, c: nat)
    requires FixedAs(codecs, original, listing, after, names, spelled) && Distinct(spelled) && c < |after|
    requires Corrects(codecs, crc, original, listing, after, names)
    requires !after[c].changed ==>
      Readable(original, listing, CopyOf(codecs, crc, original, listing, after, names), after[c].file)
    ensures OnlyCase(ArchiveOf(codecs, original, listing), Archive(names, after))
    ensures Unified(ArchiveOf(codecs, original, listing), Archive(names, after)) <==>
      Agree(ArchiveOf(codecs, original, listing))
    ensures EntryIs(codecs, CopyOf(codecs, crc, original, listing, after, names), names, after[c].file,
                    Holding(codecs, after[c]))
  {
    hide Unified, LoadedAll, Follows, Builds, EntryIs, CopyOf, ListFieldKept, OnlyCase, Agree;
    FollowsAt(codecs, original, listing.files, after, c);
    ContentCorrected(codecs, crc, original, listing, after, names, c);
  }

  // ---- what building needs, of what fixing gives ----

  /** Names as they are read have no zero byte, and unifying keeps that and every length. */
  lemma NamesStillFit(codecs: Codecs, original: seq<byte>, listing: Listing, after: seq<Content>, names: seq<Text>,
                      spelled: seq<Text>)
    requires ReadListing(codecs.list, original) == Some(listing)
    requires FixedAs(codecs, original, listing, after, names, spelled)
    requires forall i :: 0 <= i < |listing.files| ==> |listing.files[i].name| < NAME_SIZE
    ensures NamesFit(names)
  {
    hide ReadListing, LoadedAll, Unified, Agree, Follows, Fixer.MarksOk, Distinct, SameShape;
    NamesRead(codecs.list, original, listing);
    forall i | 0 <= i < |names|
      ensures |names[i]| < NAME_SIZE && 0 !in names[i]
    {
      if names == spelled {
        CaseKeepsZero(listing.files[i].name, names[i]);
      }
    }
  }

  lemma CaseKeepsZero(a: Text, b: Text)
    requires SameButCase(a, b) && 0 !in a
    ensures 0 !in b && |b| == |a|
  {
    CaseKeepsByte(a, b, 0);
  }

  lemma NamesRead(lz: Lz4, data: seq<byte>, listing: Listing)
    requires ReadListing(lz, data) == Some(listing)
    ensures forall i :: 0 <= i < |listing.files| ==> 0 !in listing.files[i].name
  {
    hide FilesIn, HeaderOf;
    var h := HeaderOf(data);
    var packed := PackedList(data, h.listOffset);
    var list := lz.decompress(packed.value.1, ListSize(h.version, packed.value.0)).value;
    NamesInList(h.version, list);
  }

  lemma {:induction false} NamesInList(version: nat, list: seq<byte>)
    ensures forall i :: 0 <= i < |FilesIn(version, list)| ==> 0 !in FilesIn(version, list)[i].name
    decreases |list|
  {
    hide EntryAt;
    if |list| >= EntrySize(version) {
      var n := |list| - EntrySize(version);
      NamesInList(version, list[..n]);
      NameOfEntry(version, list[n..]);
    }
  }

  lemma NameOfEntry(version: nat, e: seq<byte>)
    requires |e| == EntrySize(version)
    ensures 0 !in EntryAt(version, e).name
  {
  }

  /** So all that building needs of sizes beforehand is that names and new contents are not too long. */
  lemma FixedFits(codecs: Codecs, original: seq<byte>, listing: Listing, after: seq<Content>, names: seq<Text>,
                  spelled: seq<Text>)
    requires ReadListing(codecs.list, original) == Some(listing) && Correctable(listing)
    requires FixedAs(codecs, original, listing, after, names, spelled)
    requires forall i :: 0 <= i < |listing.files| ==> |listing.files[i].name| < NAME_SIZE
    requires var replaced := Replaced(codecs, original, listing.files, after);
      forall k :: 0 <= k < |replaced| ==> 0 < |replaced[k].data| <= MAX_FILE
    ensures Fixable(codecs.list, original, listing) && NamesFit(names)
    ensures ReplacementsFit(listing.files, Replaced(codecs, original, listing.files, after))
  {
    NamesStillFit(codecs, original, listing, after, names, spelled);
    hide ReadListing, LoadedAll, Unified, Agree, Follows, Fixer.MarksOk, Distinct, OnlyCase, Replaced, NamesFit;
    ReplacedDistinct(codecs, original, listing.files, after);
  }
}
