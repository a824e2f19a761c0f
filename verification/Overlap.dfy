/**
 An archive that has no unified spelling (src/pak_fix.cpp): src/lsf.cpp reads
 strings at whatever offsets the attributes give, so two of them may share
 bytes, and those two may refer to entries that are spelled differently.
*/
module Overlap {
  import opened References
  import opened Scanning
  import opened Spelling
  import opened Unification

  /** An LSF file whose values are "x/FOO/bar", with a string of the first five bytes and one of the last seven. */
  function Sample(): Archive {
    Archive([Lit("x/FOO"), Lit("q/foo/bar"), Lit("a.lsf")],
            [Content(2, true, Lit("x/FOO/bar\0"), [Token(0, 5, []), Token(2, 7, [])], false)])
  }

  function SampleLows(): seq<Text> {
    [Lit("x/foo"), Lit("q/foo/bar"), Lit("a.lsf")]
  }

  lemma LowsAre()
    ensures Lows(Sample().names) == SampleLows()
  {
    assert Lowered(Lit("x/FOO")) == Lit("x/foo");
    assert Lowered(Lit("q/foo/bar")) == Lit("q/foo/bar");
    assert Lowered(Lit("a.lsf")) == Lit("a.lsf");
    hide Lowered, Lit;
  }

  lemma DirStep(low: Text, begin: nat, s: nat)
    requires begin <= s < |low| && low[s] == SLASH && forall i :: begin <= i < s ==> low[i] != SLASH
    ensures DirPieces(low, begin) == [Piece(begin, s, Dir(low[..s]))] + DirPieces(low, s + 1)
  {
    FirstUnique(low, SLASH, begin, s);
    hide FirstFrom;
  }

  lemma NoDirs(low: Text, begin: nat)
    requires begin <= |low| && forall i :: begin <= i < |low| ==> low[i] != SLASH
    ensures DirPieces(low, begin) == []
  {
    FirstUnique(low, SLASH, begin, |low|);
    hide FirstFrom;
  }

  function ShallowPieces(): seq<Piece> {
    [Piece(0, 1, Dir(Lit("x"))), Piece(2, 5, Stem(Lit("x/foo")))]
  }

  function DeepPieces(): seq<Piece> {
    [Piece(0, 1, Dir(Lit("q"))), Piece(2, 5, Dir(Lit("q/foo"))), Piece(6, 9, Stem(Lit("q/foo/bar")))]
  }

  function FilePieces(): seq<Piece> {
    [Piece(0, 1, Stem(Lit("a"))), Piece(2, 5, Ext(Lit("a.lsf")))]
  }

  lemma ShallowAre()
    ensures Pieces(Lit("x/foo")) == ShallowPieces() && !HasExt(Lit("x/foo")) && |Leaf(Lit("x/foo"))| == 3
  {
    var low := Lit("x/foo");
    DirStep(low, 0, 1);
    NoDirs(low, 2);
    AfterLastUnique(low, SLASH, 2);
    AfterLastUnique(low, DOT, 0);
    assert low[..1] == Lit("x") && low[..5] == low;
    hide AfterLast, DirPieces, Lit;
  }

  lemma DeepBytes()
    ensures var low := Lit("q/foo/bar");
      && (forall k :: 0 <= k < 9 ==> low[k] != DOT && (low[k] == SLASH <==> k == 1 || k == 5))
      && low[..1] == Lit("q") && low[..5] == Lit("q/foo") && low[..9] == low
  {
  }

  lemma DeepAre()
    ensures Pieces(Lit("q/foo/bar")) == DeepPieces() && !HasExt(Lit("q/foo/bar")) && |Leaf(Lit("q/foo/bar"))| == 3
  {
    var low := Lit("q/foo/bar");
    DeepBytes();
    hide Lit;
    DirStep(low, 0, 1);
    DirStep(low, 2, 5);
    NoDirs(low, 6);
    AfterLastUnique(low, SLASH, 6);
    AfterLastUnique(low, DOT, 0);
    hide AfterLast, DirPieces;
  }

  lemma FileAre()
    ensures Pieces(Lit("a.lsf")) == FilePieces() && |Leaf(Lit("a.lsf"))| == 5
    ensures Extension(Lit("a.lsf")) == Lit("lsf")
  {
    var low := Lit("a.lsf");
    NoDirs(low, 0);
    AfterLastUnique(low, SLASH, 0);
    AfterLastUnique(low, DOT, 2);
    assert low[..1] == Lit("a") && low[0..] == low && Lowered(low[2..]) == Lit("lsf");
    hide AfterLast, DirPieces, Lit, Lowered;
  }

  lemma NoPins(low: Text, i: nat)
    requires |Leaf(low)| <= 5 && (!HasExt(low) || Extension(low) == Lit("lsf"))
    ensures EntryEvents(low, i) == PieceEvents(Pieces(low), i)
  {
    assert Lit("lsf")[0] != Lit("dds")[0];
    hide Leaf, Pieces, HasExt, Extension, AfterLast;
  }

  function NameEvents(): seq<Event> {
    PieceEvents(ShallowPieces(), 0) + PieceEvents(DeepPieces(), 1) + PieceEvents(FilePieces(), 2)
  }

  function FirstEvents(): seq<Event> {
    [Occ(Dir(Lit("x")), InContent(0, 0, 1)), Occ(Stem(Lit("x/foo")), InContent(0, 2, 3))]
  }

  function SecondEvents(): seq<Event> {
    [Occ(Dir(Lit("q/foo")), InContent(0, 2, 3)), Occ(Stem(Lit("q/foo/bar")), InContent(0, 6, 3))]
  }

  lemma NamesSay()
    ensures EntriesEvents(SampleLows(), 3) == NameEvents()
  {
    var lows := SampleLows();
    hide Pieces, Lit, HasExt, Leaf, Extension, PieceEvents, EntryEvents, ShallowPieces, DeepPieces, FilePieces;
    ShallowAre();
    DeepAre();
    FileAre();
    NoPins(lows[0], 0);
    NoPins(lows[1], 1);
    NoPins(lows[2], 2);
    assert EntriesEvents(lows, 0) == [];
    assert EntriesEvents(lows, 1) == EntryEvents(lows[0], 0);
    assert EntriesEvents(lows, 2) == EntryEvents(lows[0], 0) + EntryEvents(lows[1], 1);
  }

  lemma FirstSays()
    ensures TokenEvents(SampleLows(), Lit("a.lsf"), Lit("x/foo"), 0, 0, []) == FirstEvents()
  {
    var lows, key := SampleLows(), Lit("x/foo");
    ShallowAre();
    assert |lows[1]| != |key| && lows[2][0] != key[0];
    assert FullOf(lows, key, 1) == [0];
    assert FullOf(lows, key, 2) == [0];
    assert FullOf(lows, key, 3) == [0];
    assert IsWord(key);
    hide Pieces, Lit, FullOf;
    var pieces := ShallowPieces();
    assert pieces[..2] == pieces && LinkEvents(pieces[..0], 0, 0, 0, 5) == [];
    assert LinkEvents(pieces[..1], 0, 0, 0, 5) == FirstEvents()[..1];
  }

  lemma SecondSays()
    ensures TokenEvents(SampleLows(), Lit("a.lsf"), Lit("foo/bar"), 0, 2, []) == SecondEvents()
  {
    var lows, key := SampleLows(), Lit("foo/bar");
    DeepAre();
    FileAre();
    SecondFinds();
    hide Pieces, Lit, FullOf, TailOf, Extension;
    var pieces := DeepPieces();
    assert pieces[..3] == pieces && LinkEvents(pieces[..0], 0, 2, 2, 9) == [];
    assert LinkEvents(pieces[..1], 0, 2, 2, 9) == [];
    assert LinkEvents(pieces[..2], 0, 2, 2, 9) == SecondEvents()[..1];
  }

  lemma SecondFinds()
    ensures FullOf(SampleLows(), Lit("foo/bar"), 3) == []
    ensures TailOf(SampleLows(), Lit("foo/bar"), 3) == [1]
    ensures IsWord(Lit("foo/bar")) && SLASH in Lit("foo/bar") && Lit("lsf") != Lit("lua")
  {
    var lows, key := SampleLows(), Lit("foo/bar");
    assert |lows[0]| == 5 && |lows[1]| == 9 && |lows[2]| == 5 && |key| == 7;
    assert lows[1][2..] == key && lows[1][1] == SLASH;
    assert key[3] == SLASH && Lit("lsf")[1] != Lit("lua")[1];
    assert IsTail(lows[1], key) && !IsTail(lows[0], key) && !IsTail(lows[2], key);
    assert IsWord(key);
    hide Lit, IsTail;
    assert FullOf(lows, key, 1) == [] && FullOf(lows, key, 2) == [];
    assert TailOf(lows, key, 1) == [] && TailOf(lows, key, 2) == [1];
  }

  lemma KeysAre()
    ensures var content := Sample().contents[0];
      Key(content, content.strings[0]) == Lit("x/foo") && Key(content, content.strings[1]) == Lit("foo/bar")
  {
    var bytes := Sample().contents[0].bytes;
    assert |bytes| == 10 && |Lit("x/foo")| == 5 && |Lit("foo/bar")| == 7;
    assert Lowered(bytes[0..5]) == Lit("x/foo");
    assert Lowered(bytes[2..9]) == Lit("foo/bar");
  }

  lemma StringsSay()
    ensures ContentsEvents(SampleLows(), Sample().contents, 1) == FirstEvents() + SecondEvents()
  {
    var lows, content := SampleLows(), Sample().contents[0];
    hide Lit, Lowered, TokenEvents, Key, FirstEvents, SecondEvents;
    KeysAre();
    FirstSays();
    SecondSays();
    var tokens := content.strings;
    assert tokens[..2] == tokens && tokens[..1] == [tokens[0]] && tokens[..0] == [];
    assert StringEvents(lows, content, 0, tokens[0]) == FirstEvents();
    assert StringEvents(lows, content, 0, tokens[1]) == SecondEvents();
    hide StringEvents;
    assert ContentEvents(lows, content, 0, tokens[..1]) == FirstEvents();
    assert ContentEvents(lows, content, 0, tokens) == FirstEvents() + SecondEvents();
    assert ContentsEvents(lows, Sample().contents, 0) == [];
  }

  lemma LogIs()
    ensures Log(Sample()) == NameEvents() + (FirstEvents() + SecondEvents())
  {
    hide Lit, Lowered, EntriesEvents, Lows, ContentsEvents, NameEvents, FirstEvents, SecondEvents;
    LowsAre();
    NamesSay();
    StringsSay();
  }

  // ---- what the two strings are to be spelled as ----

  const SHARED := InContent(0, 2, 3)

  function ShallowStem(): Event {
    Occ(Stem(Lit("x/foo")), SHARED)
  }

  function DeepDir(): Event {
    Occ(Dir(Lit("q/foo")), SHARED)
  }

  /** Nothing is pinned or joined, and each of the two is spelled in one entry's name and in the shared bytes. */
  predicate SpelledTwice(e: Event) {
    && e.Occ?
    && (e.id == ShallowStem().id ==> e.at == InName(0, 2, 3) || e.at == SHARED)
    && (e.id == DeepDir().id ==> e.at == InName(1, 2, 3) || e.at == SHARED)
  }

  predicate AllSpelledTwice(events: seq<Event>) {
    forall k :: 0 <= k < |events| ==> SpelledTwice(events[k])
  }

  lemma PiecesSpelledTwice()
    ensures AllSpelledTwice(PieceEvents(ShallowPieces(), 0)) && AllSpelledTwice(PieceEvents(DeepPieces(), 1))
    ensures AllSpelledTwice(PieceEvents(FilePieces(), 2))
  {
    assert |Lit("x/foo")| == 5 && |Lit("q/foo/bar")| == 9 && |Lit("a")| == 1;
    hide Lit;
  }

  lemma StringsSpelledTwice()
    ensures AllSpelledTwice(FirstEvents()) && AllSpelledTwice(SecondEvents())
  {
    assert |Lit("x/foo")| == 5 && |Lit("q/foo/bar")| == 9;
    hide Lit;
  }

  lemma LogSpelledTwice(e: Event)
    requires e in Log(Sample())
    ensures SpelledTwice(e)
  {
    LogIs();
    PiecesSpelledTwice();
    StringsSpelledTwice();
    hide Log, SpelledTwice, PieceEvents, FirstEvents, SecondEvents, ShallowPieces, DeepPieces, FilePieces;
  }

  lemma BothLogged()
    ensures ShallowStem() in Log(Sample()) && DeepDir() in Log(Sample())
    ensures Occ(DeepDir().id, InName(1, 2, 3)) in Log(Sample())
  {
    LogIs();
    hide Lit, Log;
    var log := NameEvents() + (FirstEvents() + SecondEvents());
    assert ShallowStem() == FirstEvents()[1] && DeepDir() == SecondEvents()[0];
    assert ShallowStem() in FirstEvents() && DeepDir() in SecondEvents();
    assert PieceEvents(DeepPieces(), 1)[1] in PieceEvents(DeepPieces(), 1);
  }

  lemma SampleSpells()
    ensures Spelled(Sample(), InName(0, 2, 3)) == Lit("FOO") && Spelled(Sample(), SHARED) == Lit("FOO")
    ensures Spelled(Sample(), InName(1, 2, 3)) == Lit("foo") && Lit("foo")[0] != Lit("FOO")[0]
  {
    var x := Sample();
    assert x.names[0][2..5] == Lit("FOO") && x.names[1][2..5] == Lit("foo");
    assert x.contents[0].bytes[2..5] == Lit("FOO");
  }

  lemma SameIsEqual(a: Id, b: Id)
    requires Same(Lows(Sample().names), Log(Sample()), a, b)
    ensures a == b
  {
    hide Log, Lows, IconStems;
    if a != b {
      var key :| Join(key) in Log(Sample());
      LogSpelledTwice(Join(key));
      assert false;
    }
  }

  lemma InStemGroup(e: Event)
    requires e in Log(Sample()) && !e.Join? && Same(Lows(Sample().names), Log(Sample()), e.id, ShallowStem().id)
    ensures e.Occ? && Spelled(Sample(), e.at) == Lit("FOO")
  {
    hide Log, Lows, Same, Lit, Spelled;
    SampleSpells();
    LogSpelledTwice(e);
    SameIsEqual(e.id, ShallowStem().id);
  }

  lemma InDirGroup(e: Event)
    requires e in Log(Sample()) && !e.Join? && Same(Lows(Sample().names), Log(Sample()), e.id, DeepDir().id)
    ensures e.Occ? && (e.at == InName(1, 2, 3) || e.at == SHARED)
  {
    hide Log, Lows, Same, Lit;
    LogSpelledTwice(e);
    SameIsEqual(e.id, DeepDir().id);
  }

  /** The name's stem is spelled "FOO" wherever it is spelled, so it is left. */
  lemma StemGoal()
    ensures Goal(Sample(), ShallowStem()) == Lit("FOO")
  {
    var x, e := Sample(), ShallowStem();
    SampleSpells();
    BothLogged();
    hide Lit, Log, Lows, Spelled, Same, Goal, Sample;
    forall f | f in Log(x) && !f.Join? && Same(Lows(x.names), Log(x), f.id, e.id)
      ensures f.Occ? && Spelled(x, f.at) == Spelled(x, e.at)
    {
      InStemGroup(f);
    }
    OneSpellingStays(x, e);
  }

  /** The directory is spelled "foo" in the archive, and "FOO" in the shared bytes. */
  lemma DirGoal()
    ensures Goal(Sample(), DeepDir()) == Lit("foo")
  {
    var x, e := Sample(), DeepDir();
    SampleSpells();
    BothLogged();
    hide Lit, Log, Lows, Spelled, Same, Goal, Sample;
    forall f | f in Log(x) && !f.Join? && Same(Lows(x.names), Log(x), f.id, e.id)
      ensures f.Occ? && (f.at == InName(1, 2, 3) || f.at == SHARED)
    {
      InDirGroup(f);
    }
    NameDecides(x, Occ(e.id, InName(1, 2, 3)), e);
  }

  /**
   The two strings are sound but share bytes that are to be "FOO" as the one
   entry's stem and "foo" as the other's directory, so nothing is unified.
  */
  lemma SharedBytesDisagree()
    ensures Sound(Sample()) && !AllStringsApart(Sample())
    ensures ShallowStem() in Log(Sample()) && DeepDir() in Log(Sample())
    ensures Goal(Sample(), ShallowStem()) == Lit("FOO") && Goal(Sample(), DeepDir()) == Lit("foo")
    ensures !Agree(Sample()) && forall y :: !Unified(Sample(), y)
  {
    var x := Sample();
    SampleIsSound();
    BothLogged();
    StemGoal();
    DirGoal();
    SampleSpells();
    hide Log, Lit, Goal, Sound, Unified, Sample;
    var o := ContentCell(0, 2);
    assert Covers(ShallowStem(), o) && Covers(DeepDir(), o);
    assert GoalAt(x, ShallowStem(), o) != GoalAt(x, DeepDir(), o);
    assert !AgreeOn(x, ShallowStem(), DeepDir());
    UnifiedIffAgree(x);
  }

  lemma SampleIsSound()
    ensures Sound(Sample()) && !AllStringsApart(Sample())
  {
    var x := Sample();
    assert forall i :: 0 <= i < 3 ==> NoBackslash(x.names[i]);
    assert |x.contents[0].bytes| == 10;
    var strings := x.contents[0].strings;
    assert strings[0] == Token(0, 5, []) && strings[1] == Token(2, 7, []);
  }
}
