/** Which entries of an archive the case fixer looks into, and as what, by their names and sizes (src/pak_fix.cpp). */
module CorrectedLaws {
  import opened BitStrings
  import opened Components
  import opened Corrected
  import opened Lsf
  import opened LsfLaws
  import opened Pak
  import opened Scanning
  import opened Spelling
  import opened Wrappers

  /** Binary resources, by their ending. */
  predicate LsfNamed(n: Text) {
    Typed(n, Lit(".lsf")) || Typed(n, Lit(".lsfx")) || Typed(n, Lit(".lsbc")) || Typed(n, Lit(".lsbs"))
  }

  /** Texts, by their ending. */
  predicate TextNamed(n: Text) {
    || Typed(n, Lit(".lsx")) || Typed(n, Lit(".lsj")) || Typed(n, Lit(".xml")) || Typed(n, Lit(".xaml"))
    || Typed(n, Lit(".txt")) || Typed(n, Lit(".khn")) || Typed(n, Lit(".lua")) || Typed(n, Lit(".json"))
    || Typed(n, Lit(".ini")) || Typed(n, Lit(".cfg")) || Typed(n, Lit(".yaml")) || Typed(n, Lit(".yml"))
  }

  predicate IsType(ending: Text, ext: Text) {
    ending == [46] + ext && ext != [] && 46 !in ext && 47 !in ext
  }

  lemma LsfTypes()
    ensures IsType(Lit(".lsf"), Lit("lsf")) && IsType(Lit(".lsfx"), Lit("lsfx"))
    ensures IsType(Lit(".lsbc"), Lit("lsbc")) && IsType(Lit(".lsbs"), Lit("lsbs"))
  {
  }

  lemma MarkupTypes()
    ensures IsType(Lit(".lsx"), Lit("lsx")) && IsType(Lit(".lsj"), Lit("lsj"))
    ensures IsType(Lit(".xml"), Lit("xml")) && IsType(Lit(".xaml"), Lit("xaml"))
  {
  }

  lemma PlainTypes()
    ensures IsType(Lit(".txt"), Lit("txt")) && IsType(Lit(".khn"), Lit("khn"))
    ensures IsType(Lit(".lua"), Lit("lua")) && IsType(Lit(".json"), Lit("json"))
  {
  }

  lemma SettingTypes()
    ensures IsType(Lit(".ini"), Lit("ini")) && IsType(Lit(".cfg"), Lit("cfg"))
    ensures IsType(Lit(".yaml"), Lit("yaml")) && IsType(Lit(".yml"), Lit("yml"))
  {
  }

  lemma TypeIff(name: Text, ending: Text, ext: Text)
    requires NoBackslash(name) && IsType(ending, ext)
    ensures Extension(name) == ext <==> Typed(Lowered(name), ending)
  {
    hide Extension, Typed;
    LoweredTwice(name);
    forall i | 0 <= i < |name|
      ensures LowerByte(name[i]) == LowerByte(Lowered(name)[i])
    {
      assert name[i] in name;
    }
    CaseKeepsExtension(name, Lowered(name));
    hide Lowered;
    TypedIff(Lowered(name), ext);
  }

  lemma LsfIff(name: Text)
    requires NoBackslash(name)
    ensures Extension(name) in LsfExtensions() <==> LsfNamed(Lowered(name))
  {
    LsfTypes();
    hide Extension, Typed, Lit, IsType, Lowered, NoBackslash;
    TypeIff(name, Lit(".lsf"), Lit("lsf"));
    TypeIff(name, Lit(".lsfx"), Lit("lsfx"));
    TypeIff(name, Lit(".lsbc"), Lit("lsbc"));
    TypeIff(name, Lit(".lsbs"), Lit("lsbs"));
  }

  lemma TextIff(name: Text)
    requires NoBackslash(name)
    ensures Extension(name) in TextExtensions() <==> TextNamed(Lowered(name))
  {
    MarkupTypes();
    PlainTypes();
    SettingTypes();
    hide Extension, Typed, Lit, IsType, Lowered, NoBackslash;
    TypeIff(name, Lit(".lsx"), Lit("lsx"));
    TypeIff(name, Lit(".lsj"), Lit("lsj"));
    TypeIff(name, Lit(".xml"), Lit("xml"));
    TypeIff(name, Lit(".xaml"), Lit("xaml"));
    TypeIff(name, Lit(".txt"), Lit("txt"));
    TypeIff(name, Lit(".khn"), Lit("khn"));
    TypeIff(name, Lit(".lua"), Lit("lua"));
    TypeIff(name, Lit(".json"), Lit("json"));
    TypeIff(name, Lit(".ini"), Lit("ini"));
    TypeIff(name, Lit(".cfg"), Lit("cfg"));
    TypeIff(name, Lit(".yaml"), Lit("yaml"));
    TypeIff(name, Lit(".yml"), Lit("yml"));
  }

  /** An entry is looked into for its type, if it holds something and is of 32 MB at most once unpacked. */
  lemma LookedIntoIff(f: PakFile)
    requires NoBackslash(f.name)
    ensures LookedInto(f) <==>
      && (LsfNamed(Lowered(f.name)) || TextNamed(Lowered(f.name)))
      && f.sizeOnDisk > 0 && (f.flags % 16 == 0 || f.uncompressedSize > 0)
      && (if f.uncompressedSize > 0 then f.uncompressedSize else f.sizeOnDisk) <= 33_554_432
  {
    hide LsfNamed, TextNamed, LsfExtensions, TextExtensions, Extension, Lowered, NoBackslash;
    LsfIff(f.name);
    TextIff(f.name);
  }

  /** It is loaded if it can be read: a text as it is, a binary resource as the values and strings of its document. */
  lemma LoadedIff(codecs: Codecs, data: seq<byte>, f: PakFile, i: nat, x: Content)
    requires NoBackslash(f.name)
    ensures Loaded(codecs, data, f, i) == Some(x) <==>
      && LookedInto(f) && ReadEntry(codecs.entries, data, f).Some? && x.file == i && !x.changed
      && x.lsf == LsfNamed(Lowered(f.name))
      && var bytes := ReadEntry(codecs.entries, data, f).value;
         if x.lsf then
           exists d :: IsFile(codecs.sections, bytes, d) && d.values == x.bytes && d.stringValues == x.strings
         else x.bytes == bytes && x.strings == []
  {
    hide LookedInto, ReadEntry, LsfNamed, LsfExtensions, Extension, Lowered, NoBackslash, Read, IsFile;
    LsfIff(f.name);
    var bytes := ReadEntry(codecs.entries, data, f);
    if bytes.Some? {
      var d := Read(codecs.sections, bytes.value);
      if d.Some? {
        ReadLaw(codecs.sections, bytes.value, d.value);
      }
      forall d | IsFile(codecs.sections, bytes.value, d)
        ensures Read(codecs.sections, bytes.value) == Some(d)
      {
        ReadLaw(codecs.sections, bytes.value, d);
      }
    }
  }

  /** Every entry that is loaded is among the contents, once and in the order of the entries. */
  lemma {:induction false} LoadedAllIff(codecs: Codecs, data: seq<byte>, files: seq<Pak.PakFile>, n: nat, x: Content)
    requires n <= |files|
    ensures x in LoadedAll(codecs, data, files, n) <==>
      exists i: nat :: i < n && Loaded(codecs, data, files[i], i) == Some(x)
  {
    hide Loaded;
    if n > 0 {
      LoadedAllIff(codecs, data, files, n - 1, x);
    }
  }

  lemma BitOfFour(n: nat)
    ensures n % 8 < 4 <==> n / 4 % 2 == 0
  {
    assert n / 4 % 2 == (n % 8) / 4;
  }

  /** An archive may be corrected if it is in one part and the bit of weight 4 is not among its flags. */
  lemma CorrectableIff(listing: Listing)
    ensures Correctable(listing) <==>
      listing.parts == 1 && listing.flags % 8 < 4 && forall f :: f in listing.files ==> f.part == 0
  {
    BitOfFour(listing.flags);
    var files := listing.files;
    assert (forall f :: f in files ==> f.part == 0) <==> forall i :: 0 <= i < |files| ==> files[i].part == 0;
  }
}
